# Ship scheduler on a lake, in Dafny

This project models the core of a small Unity game. Ships cross a lake along
straight trajectories. When two ships' trajectories cross, a scheduler
tries to stop one of them. A ship yields to the other when the other's
passage through the crossing zone has the earlier midpoint, provided the
other is moving or already inside the zone. When both passages have the
same midpoint, neither yields and both keep moving. The player edits a "Bermuda
triangle" zone on the lake that is meant to stay convex. The source checks
this with a turn-sign test, which is not geometric convexity (see
"## Left out"). A drag, moreover, tests one position and stores another,
so the stored zone can fail the test (see "## Findings").

The model covers five source files:

- `Line.cs` (module `Lines`): an immutable segment and the closed-form
  segment-segment intersection test, with its 0.0001 parallelism tolerance
  and inclusive bounding boxes.
- `ShipManager.cs` (module `ShipManagement`): the pairwise conflict test
  and the yield rule, described below.
- `Ship.cs` (module `Ships`): a class with a moving flag, a trajectory, a
  position that advances only while moving, and a removal event raised on
  exact arrival.
- `Lake.cs` (module `Lakes`): the ship-count range guard, the perimeter
  that is accumulated once, and the do-while walk that turns a random
  fraction of the perimeter into a point on the boundary.
- `BermudianTriangle.cs` (module `BermudianTriangles`): conversion between
  local and world positions, the convexity test over the cyclic vertex
  array, the vertex drag, vertex selection and removal with its minimum of
  three vertices, pointer release, and the double-click counter.

The conflict test in `ShipManager.cs` works as follows:

- It takes the four pairings of the two ships' side edges.
- It computes signed, direction-aware distances from each ship's corners to
  the crossing points.
- It turns those distances into a `[min, max]` time window per ship.
- Two ships conflict when their windows overlap.

`ContinueShipMoving` rewrites every ship's moving flag in place, in list
order, so a later ship's decision sees the flags already written.
`SpawnShip` admits a new ship. `RemoveShipFromList` drops a ship from the
list.

`geometry.dfy` (module `Geometry`) holds the vector types, the scalar
helpers and Unity's `Vector2.MoveTowards`. `outcomes.dfy` (module `Outcomes`)
holds `Option` for C# null and `Result` for "returns a value or throws with
a message".

How the source's features are represented:

- Every float is a Dafny `real`.
- A vector's `magnitude` comes from a function parameter `mag`.
  `Geometry.IsMagnitude(mag)` states that `mag` is the Euclidean length.
- Randomness (`NextDouble`, `Next`), `Time.time`, `Time.deltaTime` and the
  mouse position are parameters.
- A thrown exception is a `Failure` carrying its message, or the message
  the caller shows.
- Raising the removal event is the `notified` result of `Ships.Ship.Update`.

Two details of the source that the model keeps:

- The signed distance to a crossing point is the full length of the vector
  to that point, not its projection onto the direction of travel.
- The parallelism test compares the squared length of the cross product
  with 0.0001, not its length.

## Model

| member | source | states |
|---|---|---|
| Geometry.MoveTowards | Assets/Ship.cs:23-24 | The engine's step: the result is the target exactly when the target is within the step; the result never moves further than the step; otherwise it moves exactly the step and gets exactly that much closer to the target. |
| Lines.DoesPointBelongsSegment | Assets/Line.cs:63-72 | True exactly when the point lies in the closed axis-aligned box spanned by the two ends. |
| Lines.SegmentEndsInterchangeable | Assets/Line.cs:63-72 | The order of the two ends does not matter, and each end belongs to its own segment. |
| Lines.SegmentIntersectionAt | Assets/Line.cs:37-60 | Lines that are not coplanar, or are (nearly) parallel, give false and the zero vector. Otherwise the candidate point lies on the first segment's carrier line, and it is reported exactly when it is in both segments' bounding boxes (val1 && val2). |
| Lines.SegmentIntersection | Assets/Line.cs:25-33 | The public test with each segment passed as start and end - start. A squared cross product of at most 0.0001 gives false and the zero vector. Otherwise the point lies in the plane on both carrier lines. The result is true exactly when the pair is not parallel and the point is in both boxes. |
| Lines.PlanarCase | Assets/Line.cs:44-47 | For segments of the plane the planar factor is 0 and the squared cross product is the square of the 2D cross product, so only the parallelism test decides. |
| Lines.CarrierCrossingUnique | Assets/Line.cs:49-50 | Two non-parallel carrier lines share at most one point, so the computed candidate is the crossing. |
| Lines.SegmentIntersectionSymmetric | Assets/Line.cs:25-60 | Swapping the two trajectories gives the same answer and the same point. |
| Lines.CrossingSegmentsAreFound | Assets/Line.cs:37-60 | If the segments are not (nearly) parallel and share a point, the test reports true and returns that point. |
| Lines.OnSegmentInBox | Assets/Line.cs:63-72 | Every point of a segment passes the bounding-box test. |
| Ships.Ship.constructor | Assets/Ship.cs:8-14 | A new ship is not moving, has no trajectory and has its removal event set with no listener. |
| Ships.Ship.GetTrajectory | Assets/Ship.cs:40-43 | Returns the stored trajectory unchanged. |
| Ships.Ship.MoveShip | Assets/Ship.cs:45-48 | Sets the moving flag to the argument and changes nothing else. |
| Ships.Ship.InitializeShip | Assets/Ship.cs:50-59 | The trajectory becomes Line(start, end) and the ship is placed at start. |
| Ships.Ship.Update | Assets/Ship.cs:16-31 | A ship that is not moving does not change. A moving ship moves toward its end by at most speed * deltaTime. It lands on the end exactly when the end was within that step, and otherwise is exactly that much closer. The event is raised (if still set) and destruction requested exactly on arrival. |
| Ships.Ship.Advance | Assets/Ship.cs:23-24 | What one MoveTowards step means for the position in the plane: bounded step, arrival iff within reach, exact progress otherwise. |
| Ships.Ship.AddRemoveListener | Assets/ShipManager.cs:84 | The manager is subscribed to the ship's arrival. |
| Ships.Ship.OnDestroy | Assets/Ship.cs:33-38 | The removal event is cleared, so no later arrival notifies anyone. |
| ShipManagement.GetIntersectPoints | Assets/ShipManager.cs:141-155 | The answer is true exactly when one of the four left/right edge pairings intersects. |
| ShipManagement.IntersectPointsTranspose | Assets/ShipManager.cs:141-155 | Asking from the other ship gives the same answer and the same four points with rows and columns exchanged. |
| Geometry.Sign | Assets/ShipManager.cs:189 | Math.Sign is 1 exactly for positive numbers, -1 exactly for negative ones and 0 exactly for zero. |
| ShipManagement.GetDistanceToPointConsideringDirection | Assets/ShipManager.cs:181-195 | The absolute value is the distance from the corner to the point. A positive value means the point is in the quadrant the trajectory heads into (Math.Sign on x and y), and in that quadrant the value is not negative. |
| ShipManagement.GetTotalTimeToInAndOut | Assets/ShipManager.cs:158-178 | The window opens at the least front-corner time (distance / speed) and closes at the greatest back-corner time. Each bound is one of those times. |
| ShipManagement.OverSpeedMonotone | Assets/ShipManager.cs:176-177 | Dividing by the (positive) speed keeps the order of distances. |
| ShipManagement.DoesShipTrajectoryIntersect | Assets/ShipManager.cs:121-138 | No intersecting edge pair means no conflict. Edges that cross with a common non-negative time in both windows mean a conflict. A conflict between well-formed windows has such a common time. |
| ShipManagement.ConflictSymmetric | Assets/ShipManager.cs:121-138 | Whether two ships conflict does not depend on which of them asks. |
| ShipManagement.ConflictIgnoresFlags | Assets/ShipManager.cs:121-138 | The conflict test never depends on any ship's moving flag. |
| ShipManagement.DoesNeedToStop | Assets/ShipManager.cs:198-209 | The ship yields exactly when the other ship's window is centred earlier than its own and the other ship is moving or sits inside the zone now (min < 0 < max). |
| ShipManagement.AtMostOneYields | Assets/ShipManager.cs:200-206 | Of two ships, never both are told to stop for each other. |
| ShipManagement.TiedShipsNeitherYield | Assets/ShipManager.cs:200-206 | When the two passages through the crossing zone have the same midpoint, neither ship is told to stop for the other. |
| ShipManagement.StoppedPartnerInsideZone | Assets/ShipManager.cs:207 | A stopped partner makes a ship yield only while its own window contains the present. |
| ShipManagement.KeepsMovingMeans | Assets/ShipManager.cs:99-114 | The inner loop's running flag stays true exactly when no other ship seen so far both conflicts and makes the ship stop. |
| ShipManagement.PassOnlyFlags | Assets/ShipManager.cs:97-117 | The pass changes moving flags only, and only those of ships it has reached. |
| ShipManagement.PassKeepsDecided | Assets/ShipManager.cs:97-117 | A flag, once written, is not rewritten later in the pass. |
| ShipManagement.PassDecides | Assets/ShipManager.cs:95-117 | After the pass, ship i moves exactly when no other ship both conflicts with it and makes it stop. This is judged on the list as it stood at i's turn. |
| ShipManagement.ContinueDecides | Assets/ShipManager.cs:95-117 | The same verdict for the real tests: conflicts as in the original list, and the stop rule reading the flags already rewritten for earlier ships. |
| ShipManagement.ClearShipAlwaysMoves | Assets/ShipManager.cs:95-117 | A ship that conflicts with no other ship is always set moving. |
| ShipManagement.DecideMoving | Assets/ShipManager.cs:99-114 | The inner loop computes exactly KeepsMoving over all ships: the flag stays set unless some other ship crosses this one and this one must yield to it. |
| ShipManagement.ClearOfEarlier | Assets/ShipManager.cs:71-81 | The spawn loop's flag is true exactly when the new ship conflicts with none of the ships listed before it. |
| ShipManagement.SpawnVerdictIgnoresFlag | Assets/ShipManager.cs:73-83 | Setting the new ship's flag does not change which earlier ships it conflicts with. |
| ShipManagement.IndexOf | Assets/ShipManager.cs:90 | The first position of the element, or -1 exactly when it is absent. |
| ShipManagement.RemoveFirst | Assets/ShipManager.cs:90 | List.Remove leaves the list as it is when the element is absent. Otherwise the list is one shorter: the elements before the first occurrence stay in place, and those after it shift down by one, in their order. |
| ShipManagement.RemoveFirstCounts | Assets/ShipManager.cs:90 | List.Remove takes away exactly one occurrence, if there is one, and nothing else. |
| ShipManagement.RemoveFromDistinct | Assets/ShipManager.cs:90 | On a list without repeats the ship is gone afterwards, every other ship stays, and there are still no repeats. |
| ShipManagement.ShipManager.ContinueShipMoving | Assets/ShipManager.cs:95-118 | The new ship list is the sequential in-place pass over the old one. Only moving flags change, and the list stays valid. |
| ShipManagement.ShipManager.RunPass | Assets/ShipManager.cs:97-117 | The outer loop realises the pass, with its two tests given as checks. |
| ShipManagement.ShipManager.DecideShip | Assets/ShipManager.cs:99-116 | One outer iteration advances the pass by one ship. |
| ShipManagement.ShipManager.WriteDecision | Assets/ShipManager.cs:116 | Writing the decided flag changes only that ship's flag. |
| ShipManagement.ShipManager.SpawnShip | Assets/ShipManager.cs:66-85 | Exactly one ship is appended, on Line(start, end) and placed at start. It moves exactly when it conflicts with no ship already listed (no yield rule), and the manager listens to its arrival. Earlier ships are unchanged. |
| ShipManagement.ShipManager.Place | Assets/ShipManager.cs:68-69 | The ship is appended and initialised, and earlier ships are unchanged. |
| ShipManagement.ShipManager.Admit | Assets/ShipManager.cs:83-84 | The new ship's flag is set and the listener added, and only that flag changes. |
| ShipManagement.ShipManager.RemoveShipFromList | Assets/ShipManager.cs:88-92 | The ship is removed as List.Remove does: afterwards it is not listed and every other ship still is. |
| Lakes.GetRandomInt | Assets/Lake.cs:37-45 | Fails with "Incorrect range of ship count" exactly when min > max. Otherwise the value is in [min, max), or is min when min == max. |
| Lakes.ScaledDrawInRange | Assets/Lake.cs:44 | A draw in [0, 1) scaled to the range width floors into [0, width), or to 0 for an empty range. |
| Lakes.ArcMonotone | Assets/Lake.cs:76-86 | The arc length from point 0 grows along the boundary. |
| Lakes.EdgeWithinPerimeter | Assets/Lake.cs:76-86 | An edge of positive length is no longer than the perimeter, so the perimeter is positive. |
| Lakes.PositivePerimeter | Assets/Lake.cs:76-86 | A boundary with some edge of positive length has a positive perimeter. |
| Lakes.OnEdgeIsOnBoundary | Assets/Lake.cs:110-112 | A point a fraction t in [0, 1] along edge i lies on that edge's carrier line and passes the segment test of Line.cs. |
| Lakes.PerimeterCovers | Assets/Lake.cs:99 | The target arc length perimeter * u lies in [0, perimeter). |
| Lakes.Lake.constructor | Assets/Lake.cs:33-34 | A new lake has not yet computed its perimeter, which is 0. |
| Lakes.Lake.FindLakePerimeter | Assets/Lake.cs:76-86 | Adds to the stored perimeter the length of every edge, the closing edge included. |
| Lakes.Lake.EnsurePerimeter | Assets/Lake.cs:93-97 | The perimeter is computed on the first call only, and later calls keep it. |
| Lakes.Lake.Walk | Assets/Lake.cs:99-108 | The do-while stops at an index i in 1..n. The remaining padding equals perimeter * u minus the arc length up to point i-1, and it lies in [0, length of edge i-1]. When the walk passed at least one edge, the padding is positive. |
| Lakes.Lake.BeforeLastEdge | Assets/Lake.cs:103-108 | While target arc length is left past point i, the walk has not passed the last edge. |
| Lakes.Lake.WrapIndices | Assets/Lake.cs:106-110 | The walk's indices taken modulo the number of points name edge i-1. |
| Lakes.Lake.StopsOnPositiveEdge | Assets/Lake.cs:99-112 | Under GetRandomPoint's precondition, the do-while stops with a positive rest of the target or on an edge of positive length: past the first edge the rest is positive, and on the first edge it is the whole target perimeter * u. |
| Lakes.Lake.Landing | Assets/Lake.cs:99-112 | Where the do-while stops, the edge has positive length and the rest of perimeter * u is a fraction t in [0, 1] of it, with arc length + t * edge length equal to perimeter * u. |
| Lakes.Lake.Interpolate | Assets/Lake.cs:108-112 | When the padding or the stopping edge is positive, the edge length is positive. The padding left at the end of the walk is then a fraction t in [0, 1] of the edge length, and arc length + t * edge length equals the target. |
| Lakes.Lake.PointOnEdge | Assets/Lake.cs:110-112 | For an edge of positive length, the result is the start of edge i-1 plus the edge vector scaled by padding / edge length, with the indices taken modulo n. |
| Lakes.Lake.GetRandomPoint | Assets/Lake.cs:89-113 | The perimeter is known afterwards. The point is on boundary edge `edge` at a fraction t in [0, 1], and the arc length from point 0 to it is perimeter * u. |
| BermudianTriangles.IntoLocalPosition | Assets/BermudianTriangle.cs:88-91 | The local position plus the origin is the world position. |
| BermudianTriangles.IntoGlobalPosition | Assets/BermudianTriangle.cs:94-97 | The world position minus the origin is the local position. |
| BermudianTriangles.LocalGlobalRoundTrip | Assets/BermudianTriangle.cs:88-97 | The local and world conversions undo each other, in either order. |
| BermudianTriangles.MathfSign | Assets/BermudianTriangle.cs:241 | Mathf.Sign is 1 or -1, and it is 1 exactly for non-negative numbers. |
| BermudianTriangles.NextIsMod | Assets/BermudianTriangle.cs:233-237 | The next and next-but-one vertex are the indices (i + 1) % n and (i + 2) % n. |
| BermudianTriangles.SlotOfIndex | Assets/BermudianTriangle.cs:218-227 | The id of an existing vertex, shifted by n and taken modulo n, is that vertex's own slot. |
| BermudianTriangles.Candidate | Assets/BermudianTriangle.cs:217-227 | The tested polygon has n vertices. The vertex in slot (pointId + n) % n is the new position, and every other vertex keeps its position. |
| BermudianTriangles.Outline | Assets/BermudianTriangle.cs:220-225 | The spline's points in the plane, one per vertex. |
| BermudianTriangles.CandidateOfMove | Assets/BermudianTriangle.cs:57-63 | Moving a vertex and then taking the outline gives the polygon the convexity test examines for that move. |
| BermudianTriangles.TriangleAlwaysConvex | Assets/BermudianTriangle.cs:229-251 | Any polygon with three vertices passes the convexity test. |
| BermudianTriangles.StarPassesTest | Assets/BermudianTriangle.cs:229-251 | A five-pointed star passes the turn-sign test, although two of its edges cross at (2/3, 1). |
| BermudianTriangles.StraightCornerFailsTest | Assets/BermudianTriangle.cs:239-241 | A clockwise square with a vertex in the middle of one side fails the test, because Mathf.Sign(0) is 1. |
| BermudianTriangles.QuadConvex | Assets/BermudianTriangle.cs:229-251 | A quadrilateral that turns left at every corner passes the convexity test. |
| BermudianTriangles.FirstHit | Assets/BermudianTriangle.cs:102-106 | Finds the first vertex whose world position is within 0.25 of the click, or none exactly when no vertex is. |
| BermudianTriangles.CheckTurns | Assets/BermudianTriangle.cs:229-251 | The turn walk succeeds with true exactly when every cyclic turn has the sign of the first. Otherwise it fails with "The polygon isn't convex". |
| BermudianTriangles.DragCheckMissesOffset | Assets/BermudianTriangle.cs:55-63 | A drag whose checked position passes the turn-sign test can store a vertex with which the polygon fails it, with a click offset shorter than the pick radius. The stored kite has a reflex corner. |
| BermudianTriangles.BermudianTriangle.constructor | Assets/BermudianTriangle.cs:24-33 | A new shape holds no vertex, has counted no click and is valid. |
| BermudianTriangles.BermudianTriangle.IsPolygonConvex | Assets/BermudianTriangle.cs:215-252 | Succeeds with true exactly when the polygon, with the vertex in slot pointId moved, passes the turn-sign test: Mathf.Sign of every cyclic turn equals that of the first. Otherwise it fails with "The polygon isn't convex". |
| BermudianTriangles.BermudianTriangle.CopyVertices | Assets/BermudianTriangle.cs:220-225 | A fresh array holding the spline's points in the plane. |
| BermudianTriangles.BermudianTriangle.Update | Assets/BermudianTriangle.cs:48-71 | As written: nothing changes unless a vertex is held. The mouse position is tested for convexity. If it passes, the vertex and its marker move to that position minus the click offset. Otherwise the error is shown and nothing moves. |
| BermudianTriangles.BermudianTriangle.UpdateChecked | Assets/BermudianTriangle.cs:48-71 | Corrected: the position actually stored is tested. So after every stored move the polygon passes the turn-sign test, and a failed test shows the error and moves nothing. |
| BermudianTriangles.BermudianTriangle.DetectPointSelection | Assets/BermudianTriangle.cs:100-129 | Finds the first vertex within 0.25 of the click. On a miss: success false, nothing changes. On a double click with more than 3 vertices: that vertex and its marker are removed. With exactly 3 vertices: fails with "There is minimal point count, can't remove" and holds nothing. Otherwise: the vertex is held with its click offset. |
| BermudianTriangles.BermudianTriangle.OnPointerUp | Assets/BermudianTriangle.cs:152-156 | Nothing is held afterwards (flag false, id -1). |
| BermudianTriangles.BermudianTriangle.DetectDoubleClick | Assets/BermudianTriangle.cs:189-212 | A double click happens exactly when an earlier click was counted and this one comes less than 0.5 s after the recorded time; it clears the count and the time. Otherwise the first click records its time. The count restarts after a third click or more than 1 s after that time, and otherwise goes up by one. |

## Findings

| source | as written | input that shows it | evidently intended | confidence | as-written member | corrected member |
|---|---|---|---|---|---|---|
| Assets/BermudianTriangle.cs:55-63 | The drag tests convexity with the mouse position, but stores the mouse position minus the click offset. | Spline (0.2,0.1), (1.1,0.3), (0.9,0.8), (0.3,0.9); dragging vertex 2 with the mouse at (0.75,0.65) and a click offset of (0.15,0.15), shorter than the 0.25 pick radius. The tested polygon passes the turn-sign test, but with the stored vertex (0.6,0.5) it fails it: that corner is reflex. | Test the position that is stored, so the stored zone always passes the turn-sign test. | not executed | BermudianTriangles.BermudianTriangle.Update, BermudianTriangles.DragCheckMissesOffset | BermudianTriangles.BermudianTriangle.UpdateChecked |

## Left out

- BermudianTriangles.BermudianTriangle.IsPolygonConvex: the source's test compares the signs of the cyclic turns, so it is not geometric convexity, and the model promises only the test. A self-crossing polygon whose turns all go one way passes (StarPassesTest). A clockwise convex polygon with a straight corner fails, because Mathf.Sign(0) is 1 (StraightCornerFailsTest).
- Unity engine plumbing is not modelled:
  - `Instantiate` and `Destroy`; `Destroy(this)` is only the `destroyRequested` flag.
  - `SpriteShapeController` and spline calls: height, tangents, collider baking.
  - `LineRenderer` drawing (`DrawTrajectory`), `RenderLake`, `Awake`.
  - Camera and Input coordinate conversions.
- `SpawnAllRequiredShip` (ShipManager.cs and SheepManager.cs) is left out. It is an async loop driven by random delays and a re-entry flag, so its substance is timing. `RemoveShipFromList`'s call to it is not modelled either.
- `SheepManager.cs` is not part of this model. It is a superseded duplicate of the lake walk without collision logic.
- `SettingsAndInfo.cs` is not part of this model (user interface only). Error messages are returned to the caller instead of shown.
- `Line.GatAngle` and the rotation part of `SetUpShipTransform` are left out. They are trigonometry used only to orient sprites.
- `ToggleSignalPlaying` and `OnTriggerEnter2D` / `OnTriggerExit2D` are left out (audio and physics callbacks).
- `DetectPointsCreation` is left out. It relies on `Vector3.Project`, so `OnPointerDown`, which dispatches to it, is also left out.
- Float arithmetic is not modelled: rounding, NaN and infinities. The model computes over the reals, and the tolerances 0.0001, 0.25, 0.5 and 1 and Mathf.Epsilon are real constants.
- `magnitude` is a function parameter required to be the Euclidean length (`Geometry.IsMagnitude`); no square root is computed.
- A ship's edges, corner offsets and speed are given fields. How the game derives them is not part of this model. The speed is required to be positive, so time windows are always defined.
- The removal event is the `notified` result of `Ships.Ship.Update`. Its dispatch to the manager is not modelled.
- `Assets/ShipManager.cs:84` names the event `removeFromListEvent`, while `Ship.cs` declares `RemoveFromListEvent`. The model treats both as the same event.
- ShipManagement.ShipManager.ContinueShipMoving: the manager passes its two tests to the loops as function values. Ships are read through snapshots (`ShipView`), which stand for the references the C# loop follows.
- ShipManagement.DoesShipTrajectoryIntersect: a conflict is shown to have a common non-negative time only for windows with min <= max. For an inverted window (min > max) the contract does not say what the test answers.
- Lakes.Lake.GetRandomPoint: the first boundary edge is required to have positive length, or else both the draw and some edge. Otherwise the walk stops on the zero-length first edge with nothing left, and the source divides 0 by 0 (a NaN point), which is not modelled. Zero-length edges elsewhere are walked over. The boundary points are constant after the lake is baked.
- Lakes.GetRandomInt: `CustomRandom` is not part of this model. Its `Next(min, max)` is modelled as System.Random's: a draw `u` in [0, 1) scaled onto the half-open range.
- BermudianTriangles.Slot: for an id below 0 only the formula (id + n) % n is stated. Every caller passes an existing vertex id.
- BermudianTriangles.BermudianTriangle.DetectPointSelection: it is modelled for a press while no vertex is held, since presses and releases alternate.
- BermudianTriangles.BermudianTriangle.Update: the spline's own rejection of invalid positions in `SetPosition` is not modelled.
