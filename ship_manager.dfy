/** ShipManager.cs: the collision-avoidance scheduler. Every frame each
    ship is checked against every other one: the four pairings of the two
    ships' side edges give the points where their swept strips cross, the
    signed distances from the ship's corners to those points give a time
    window in which the ship occupies the crossing zone, and two ships
    conflict when their windows overlap at a non-negative time. Of two
    conflicting ships the one the yield rule picks is stopped. */
module ShipManagement {
  import opened Geometry
  import opened Lines
  import opened Ships

  /** The `out Vector3[2,2]` of GetIntersectPoints (row: this ship's left or
      right edge, column: the other ship's left or right edge) and its
      boolean answer. */
  datatype Crossings = Crossings(any: bool, points: Grid2<Vec3>)

  /** A time window `[min, max]` in seconds from now. */
  datatype Window = Window(min: real, max: real)
  {
    predicate Contains(t: real) { min <= t <= max }
  }

  function Transpose(g: Grid2<Vec3>): Grid2<Vec3>
  {
    Grid2(g.at00, g.at10, g.at01, g.at11)
  }

  /** GetIntersectPoints: the four edge pairings, and whether any of them
      intersects. */
  function GetIntersectPoints(current: ShipView, counter: ShipView): (r: Crossings)
    ensures r.any <==>
              SegmentIntersection(current.leftTrajectory, counter.leftTrajectory).found ||
              SegmentIntersection(current.leftTrajectory, counter.rightTrajectory).found ||
              SegmentIntersection(current.rightTrajectory, counter.leftTrajectory).found ||
              SegmentIntersection(current.rightTrajectory, counter.rightTrajectory).found
  {
    var ll := SegmentIntersection(current.leftTrajectory, counter.leftTrajectory);
    var lr := SegmentIntersection(current.leftTrajectory, counter.rightTrajectory);
    var rl := SegmentIntersection(current.rightTrajectory, counter.leftTrajectory);
    var rr := SegmentIntersection(current.rightTrajectory, counter.rightTrajectory);
    Crossings(ll.found || lr.found || rl.found || rr.found, Grid2(ll.point, lr.point, rl.point, rr.point))
  }

  /** Looking from the other ship gives the same crossings, with rows and
      columns exchanged. */
  lemma {:induction false} IntersectPointsTranspose(a: ShipView, b: ShipView)
    ensures GetIntersectPoints(b, a).any == GetIntersectPoints(a, b).any
    ensures GetIntersectPoints(b, a).points == Transpose(GetIntersectPoints(a, b).points)
  {
    SegmentIntersectionSymmetric(a.leftTrajectory, b.leftTrajectory);
    SegmentIntersectionSymmetric(a.leftTrajectory, b.rightTrajectory);
    SegmentIntersectionSymmetric(a.rightTrajectory, b.leftTrajectory);
    SegmentIntersectionSymmetric(a.rightTrajectory, b.rightTrajectory);
  }

  /** Both vectors point into the same quadrant, axis by axis, as judged by
      System.Math.Sign. */
  predicate SameSigns(way: Vec3, pointWay: Vec3)
  {
    Sign(way.x) == Sign(pointWay.x) && Sign(way.y) == Sign(pointWay.y)
  }

  /** GetDistanceToPointConsideringDirection: the distance from the ship's
      corner (position + offset) to the point, counted negative unless the
      point lies in the quadrant the trajectory heads into. */
  function GetDistanceToPointConsideringDirection(ship: ShipView, currentPointOffset: Vec3, intersectionPoint: Vec3, mag: Magnitude): (r: real)
    requires IsMagnitude(mag)
    ensures var pointWay := intersectionPoint.Sub(ship.position.Add(currentPointOffset));
            Abs(r) == mag(pointWay) &&
            (0.0 < r ==> SameSigns(Lift(ship.trajectory.Direction()), pointWay)) &&
            (SameSigns(Lift(ship.trajectory.Direction()), pointWay) ==> 0.0 <= r)
  {
    var pointWay := intersectionPoint.Sub(ship.position.Add(currentPointOffset));
    LengthOf(mag, pointWay);
    var magnitude := mag(pointWay);
    var way := Lift(ship.trajectory.endPoint.Sub(ship.trajectory.startPoint));
    if !(Sign(way.x) == Sign(pointWay.x) && Sign(way.y) == Sign(pointWay.y)) then
      magnitude * -1.0
    else
      magnitude
  }

  /** The signed distances at which the ship's front corners reach the
      crossing points on their own edge: the left front corner to the
      points of the left edge, the right front corner to those of the right
      edge. */
  function Entries(ship: ShipView, intersection: Grid2<Vec3>, mag: Magnitude): seq<real>
    requires IsMagnitude(mag)
  {
    [GetDistanceToPointConsideringDirection(ship, ship.sizeOffset.at00, intersection.at00, mag),
     GetDistanceToPointConsideringDirection(ship, ship.sizeOffset.at00, intersection.at01, mag),
     GetDistanceToPointConsideringDirection(ship, ship.sizeOffset.at01, intersection.at10, mag),
     GetDistanceToPointConsideringDirection(ship, ship.sizeOffset.at01, intersection.at11, mag)]
  }

  /** The same for the back corners: when they have passed the points. */
  function Exits(ship: ShipView, intersection: Grid2<Vec3>, mag: Magnitude): seq<real>
    requires IsMagnitude(mag)
  {
    [GetDistanceToPointConsideringDirection(ship, ship.sizeOffset.at10, intersection.at00, mag),
     GetDistanceToPointConsideringDirection(ship, ship.sizeOffset.at10, intersection.at01, mag),
     GetDistanceToPointConsideringDirection(ship, ship.sizeOffset.at11, intersection.at10, mag),
     GetDistanceToPointConsideringDirection(ship, ship.sizeOffset.at11, intersection.at11, mag)]
  }

  /** Distances turned into times at the ship's speed. */
  function Times(distances: seq<real>, speed: Speed): (ts: seq<real>)
    ensures |ts| == |distances|
    ensures forall k :: 0 <= k < |distances| ==> ts[k] == distances[k] / speed
  {
    seq(|distances|, k requires 0 <= k < |distances| => distances[k] / speed)
  }

  /** GetTotalTimeToInAndOut: the window opens at the earliest time a front
      corner reaches a crossing point and closes at the latest time a back
      corner has passed one. */
  function GetTotalTimeToInAndOut(ship: ShipView, intersection: Grid2<Vec3>, mag: Magnitude): (w: Window)
    requires IsMagnitude(mag)
    ensures var entryTimes := Times(Entries(ship, intersection, mag), ship.speed);
            w.min in entryTimes && forall t <- entryTimes :: w.min <= t
    ensures var exitTimes := Times(Exits(ship, intersection, mag), ship.speed);
            w.max in exitTimes && forall t <- exitTimes :: t <= w.max
  {
    WindowOf(Entries(ship, intersection, mag), Exits(ship, intersection, mag), ship.speed)
  }

  /** The window computation proper: `lMin`, `lMax` over the left edge's
      two points, `rMin`, `rMax` over the right edge's, then the outer
      minimum and maximum divided by the speed. */
  function WindowOf(entries: seq<real>, exits: seq<real>, speed: Speed): (w: Window)
    requires |entries| == 4 && |exits| == 4
    ensures var entryTimes := Times(entries, speed);
            w.min in entryTimes && forall t <- entryTimes :: w.min <= t
    ensures var exitTimes := Times(exits, speed);
            w.max in exitTimes && forall t <- exitTimes :: t <= w.max
  {
    var lMin := Min(entries[0], entries[1]);
    var lMax := Max(exits[0], exits[1]);
    var rMin := Min(entries[2], entries[3]);
    var rMax := Max(exits[2], exits[3]);
    MinOverSpeed(entries[0], entries[1], speed);
    MinOverSpeed(entries[2], entries[3], speed);
    MinOverSpeed(lMin, rMin, speed);
    MaxOverSpeed(exits[0], exits[1], speed);
    MaxOverSpeed(exits[2], exits[3], speed);
    MaxOverSpeed(lMax, rMax, speed);
    var entryTimes, exitTimes := Times(entries, speed), Times(exits, speed);
    assert entryTimes == [entryTimes[0], entryTimes[1], entryTimes[2], entryTimes[3]];
    assert exitTimes == [exitTimes[0], exitTimes[1], exitTimes[2], exitTimes[3]];
    Window(Min(lMin, rMin) / speed, Max(lMax, rMax) / speed)
  }

  /** Dividing by a positive speed keeps the order of distances. */
  lemma OverSpeedMonotone(a: real, b: real, speed: Speed)
    requires a <= b
    ensures a / speed <= b / speed
  {}

  lemma MinOverSpeed(a: real, b: real, speed: Speed)
    ensures Min(a, b) / speed == Min(a / speed, b / speed)
  {
    if a <= b { OverSpeedMonotone(a, b, speed); } else { OverSpeedMonotone(b, a, speed); }
  }

  lemma MaxOverSpeed(a: real, b: real, speed: Speed)
    ensures Max(a, b) / speed == Max(a / speed, b / speed)
  {
    if a <= b { OverSpeedMonotone(a, b, speed); } else { OverSpeedMonotone(b, a, speed); }
  }

  /** The window of `current` with respect to `counter`: the crossing
      points as seen from `current`, turned into its time window. */
  function TimeWindow(current: ShipView, counter: ShipView, mag: Magnitude): Window
    requires IsMagnitude(mag)
  {
    GetTotalTimeToInAndOut(current, GetIntersectPoints(current, counter).points, mag)
  }

  /** DoesShipTrajectoryIntersect: no crossing edge pair means no conflict;
      otherwise the two ships conflict unless one window ends before the
      other begins or one of them has already ended. A time at which both
      ships are in the zone is a conflict, and for windows with
      `min <= max` a conflict has such a time. */
  function DoesShipTrajectoryIntersect(ships: seq<ShipView>, current: nat, counter: nat, mag: Magnitude): (r: bool)
    requires IsMagnitude(mag)
    requires current < |ships| && counter < |ships|
    ensures r ==> GetIntersectPoints(ships[current], ships[counter]).any
    ensures var wc, wp := TimeWindow(ships[current], ships[counter], mag), TimeWindow(ships[counter], ships[current], mag);
            (GetIntersectPoints(ships[current], ships[counter]).any &&
             exists t :: 0.0 <= t && wc.Contains(t) && wp.Contains(t)) ==> r
    ensures var wc, wp := TimeWindow(ships[current], ships[counter], mag), TimeWindow(ships[counter], ships[current], mag);
            var t := Max(0.0, Max(wc.min, wp.min));
            (r && wc.min <= wc.max && wp.min <= wp.max) ==> wc.Contains(t) && wp.Contains(t)
  {
    var crossings := GetIntersectPoints(ships[current], ships[counter]);
    if !crossings.any then
      false
    else
      var minMaxCurrent := GetTotalTimeToInAndOut(ships[current], crossings.points, mag);
      var minMaxPrev := TimeWindow(ships[counter], ships[current], mag);
      !(minMaxCurrent.min > minMaxPrev.max || minMaxPrev.min > minMaxCurrent.max ||
        minMaxCurrent.max < 0.0 || minMaxPrev.max < 0.0)
  }

  /** Whether two ships conflict does not depend on which one asks. */
  lemma {:induction false} ConflictSymmetric(ships: seq<ShipView>, i: nat, j: nat, mag: Magnitude)
    requires IsMagnitude(mag)
    requires i < |ships| && j < |ships|
    ensures DoesShipTrajectoryIntersect(ships, i, j, mag) == DoesShipTrajectoryIntersect(ships, j, i, mag)
  {
    IntersectPointsTranspose(ships[i], ships[j]);
  }

  /** The middle of a window. */
  function Midpoint(w: Window): real { (w.min + w.max) / 2.0 }

  /** DoesNeedToStop: `current` yields when its window is centred later
      than the other ship's (`r1`), provided the other ship is moving or,
      standing still, is inside the zone right now (`r2`). */
  function DoesNeedToStop(ships: seq<ShipView>, current: nat, counter: nat, mag: Magnitude): (r: bool)
    requires IsMagnitude(mag)
    requires current < |ships| && counter < |ships|
    ensures var wc, wp := TimeWindow(ships[current], ships[counter], mag), TimeWindow(ships[counter], ships[current], mag);
            r <==> Midpoint(wp) < Midpoint(wc) && (ships[counter].isMoving || wp.min < 0.0 < wp.max)
  {
    var minMaxCurrent := TimeWindow(ships[current], ships[counter], mag);
    var minMaxPrev := TimeWindow(ships[counter], ships[current], mag);
    var r1 := minMaxPrev.max - minMaxCurrent.min < minMaxCurrent.max - minMaxPrev.min;
    var r2 := ships[counter].isMoving || (!ships[counter].isMoving && minMaxPrev.min < 0.0 && minMaxPrev.max > 0.0);
    r1 && r2
  }

  /** Of two ships, at most one is told to yield to the other. */
  lemma AtMostOneYields(ships: seq<ShipView>, i: nat, j: nat, mag: Magnitude)
    requires IsMagnitude(mag)
    requires i < |ships| && j < |ships|
    ensures !(DoesNeedToStop(ships, i, j, mag) && DoesNeedToStop(ships, j, i, mag))
  {}

  /** Two ships whose passages through the crossing zone have the same
      midpoint do not yield to each other: both keep moving. */
  lemma TiedShipsNeitherYield(ships: seq<ShipView>, i: nat, j: nat, mag: Magnitude)
    requires IsMagnitude(mag)
    requires i < |ships| && j < |ships|
    requires Midpoint(TimeWindow(ships[i], ships[j], mag)) == Midpoint(TimeWindow(ships[j], ships[i], mag))
    ensures !DoesNeedToStop(ships, i, j, mag) && !DoesNeedToStop(ships, j, i, mag)
  {}

  /** A stopped ship makes another one yield only while it sits inside the
      crossing zone itself. */
  lemma StoppedPartnerInsideZone(ships: seq<ShipView>, i: nat, j: nat, mag: Magnitude)
    requires IsMagnitude(mag)
    requires i < |ships| && j < |ships|
    requires !ships[j].isMoving && DoesNeedToStop(ships, i, j, mag)
    ensures var wp := TimeWindow(ships[j], ships[i], mag); wp.min < 0.0 < wp.max
  {}

  /** A yes/no question ContinueShipMoving asks about ship `i` and ship `j`
      of a list: do they conflict, does `i` have to stop. */
  type PairTest = (seq<ShipView>, nat, nat) -> bool

  /** DoesShipTrajectoryIntersect and DoesNeedToStop as such questions. */
  ghost function IntersectTest(mag: Magnitude): PairTest
  {
    (ships: seq<ShipView>, i: nat, j: nat) =>
      IsMagnitude(mag) && i < |ships| && j < |ships| && DoesShipTrajectoryIntersect(ships, i, j, mag)
  }

  ghost function StopTest(mag: Magnitude): PairTest
  {
    (ships: seq<ShipView>, i: nat, j: nat) =>
      IsMagnitude(mag) && i < |ships| && j < |ships| && DoesNeedToStop(ships, i, j, mag)
  }

  /** The running `isMoving` of ContinueShipMoving's inner loop after the
      first `n` other ships: ship `current` keeps moving as long as no ship
      it conflicts with has made it stop. */
  ghost function KeepsMoving(ships: seq<ShipView>, current: nat, n: nat, intersect: PairTest, needToStop: PairTest): bool
    requires n <= |ships|
  {
    if n == 0 then
      true
    else
      var j := n - 1;
      var isMoving := KeepsMoving(ships, current, j, intersect, needToStop);
      if current == j then isMoving
      else if intersect(ships, current, j) then isMoving && !needToStop(ships, current, j)
      else isMoving
  }

  /** The ships after the first `k` iterations of ContinueShipMoving's
      outer loop: ship `i`'s flag is decided on the ships as they are once
      ships `0 .. i-1` have had their flags rewritten. */
  ghost function Pass(ships: seq<ShipView>, k: nat, intersect: PairTest, needToStop: PairTest): (after: seq<ShipView>)
    requires k <= |ships|
    ensures |after| == |ships|
  {
    if k == 0 then
      ships
    else
      var before := Pass(ships, k - 1, intersect, needToStop);
      before[k - 1 := before[k - 1].(isMoving := KeepsMoving(before, k - 1, |before|, intersect, needToStop))]
  }

  /** The inner loop's verdict: ship `current` keeps moving exactly when
      none of the first `n` other ships both conflicts with it and makes
      it stop. */
  lemma {:induction false} KeepsMovingMeans(ships: seq<ShipView>, current: nat, n: nat, intersect: PairTest, needToStop: PairTest)
    requires n <= |ships|
    ensures KeepsMoving(ships, current, n, intersect, needToStop) <==>
              forall j :: 0 <= j < n && j != current ==> !(intersect(ships, current, j) && needToStop(ships, current, j))
  {
    if n > 0 {
      KeepsMovingMeans(ships, current, n - 1, intersect, needToStop);
    }
  }

  /** The pass rewrites moving flags only, and only those of the ships it
      has reached. */
  lemma {:induction false} PassOnlyFlags(ships: seq<ShipView>, k: nat, intersect: PairTest, needToStop: PairTest)
    requires k <= |ships|
    ensures SameButFlags(ships, Pass(ships, k, intersect, needToStop))
    ensures forall m :: k <= m < |ships| ==> Pass(ships, k, intersect, needToStop)[m] == ships[m]
  {
    if k > 0 {
      PassOnlyFlags(ships, k - 1, intersect, needToStop);
    }
  }

  /** One more outer iteration rewrites the next ship's flag. */
  lemma PassStep(ships: seq<ShipView>, k: nat, intersect: PairTest, needToStop: PairTest)
    requires k < |ships|
    ensures var before := Pass(ships, k, intersect, needToStop);
            Pass(ships, k + 1, intersect, needToStop) ==
              before[k := before[k].(isMoving := KeepsMoving(before, k, |ships|, intersect, needToStop))]
  {
  }

  /** Once a ship's flag is written, later iterations leave it alone. */
  lemma {:induction false} PassKeepsDecided(ships: seq<ShipView>, k: nat, k': nat, m: nat, intersect: PairTest, needToStop: PairTest)
    requires m < k <= k' <= |ships|
    ensures Pass(ships, k', intersect, needToStop)[m] == Pass(ships, k, intersect, needToStop)[m]
    decreases k' - k
  {
    if k' > k {
      PassKeepsDecided(ships, k, k' - 1, m, intersect, needToStop);
    }
  }

  /** After the pass, ship `i` is moving exactly when no ship it conflicts
      with makes it stop, judged on the list as it stood when `i`'s turn
      came (earlier ships already updated, later ones not). */
  lemma {:induction false} PassDecides(ships: seq<ShipView>, i: nat, intersect: PairTest, needToStop: PairTest)
    requires i < |ships|
    ensures Pass(ships, |ships|, intersect, needToStop)[i].isMoving ==
              KeepsMoving(Pass(ships, i, intersect, needToStop), i, |ships|, intersect, needToStop)
    ensures Pass(ships, |ships|, intersect, needToStop)[i].isMoving <==>
              forall j :: 0 <= j < |ships| && j != i ==>
                !(intersect(Pass(ships, i, intersect, needToStop), i, j) && needToStop(Pass(ships, i, intersect, needToStop), i, j))
  {
    PassKeepsDecided(ships, i + 1, |ships|, i, intersect, needToStop);
    KeepsMovingMeans(Pass(ships, i, intersect, needToStop), i, |ships|, intersect, needToStop);
  }

  /** Two lists of ships that differ at most in their moving flags. */
  predicate SameButFlags(a: seq<ShipView>, b: seq<ShipView>)
  {
    |a| == |b| && forall m :: 0 <= m < |a| ==> b[m] == a[m].(isMoving := b[m].isMoving)
  }

  /** The windows and the crossings look at geometry only, never at the
      moving flags. */
  lemma WindowIgnoresFlag(a: ShipView, b: ShipView, flag: bool, mag: Magnitude)
    requires IsMagnitude(mag)
    ensures TimeWindow(a.(isMoving := flag), b, mag) == TimeWindow(a, b, mag)
    ensures TimeWindow(a, b.(isMoving := flag), mag) == TimeWindow(a, b, mag)
    ensures GetIntersectPoints(a.(isMoving := flag), b) == GetIntersectPoints(a, b)
    ensures GetIntersectPoints(a, b.(isMoving := flag)) == GetIntersectPoints(a, b)
  {
    OwnWindowIgnoresFlag(a, b, flag, mag);
    OtherWindowIgnoresFlag(a, b, flag, mag);
  }

  lemma OwnWindowIgnoresFlag(a: ShipView, b: ShipView, flag: bool, mag: Magnitude)
    requires IsMagnitude(mag)
    ensures TimeWindow(a.(isMoving := flag), b, mag) == TimeWindow(a, b, mag)
    ensures GetIntersectPoints(a.(isMoving := flag), b) == GetIntersectPoints(a, b)
  {
    var a' := a.(isMoving := flag);
    assert GetIntersectPoints(a', b) == GetIntersectPoints(a, b);
    CornersIgnoreFlag(a, GetIntersectPoints(a, b).points, flag, mag);
  }

  lemma CornersIgnoreFlag(a: ShipView, points: Grid2<Vec3>, flag: bool, mag: Magnitude)
    requires IsMagnitude(mag)
    ensures Entries(a.(isMoving := flag), points, mag) == Entries(a, points, mag)
    ensures Exits(a.(isMoving := flag), points, mag) == Exits(a, points, mag)
  {
  }

  lemma OtherWindowIgnoresFlag(a: ShipView, b: ShipView, flag: bool, mag: Magnitude)
    requires IsMagnitude(mag)
    ensures TimeWindow(a, b.(isMoving := flag), mag) == TimeWindow(a, b, mag)
    ensures GetIntersectPoints(a, b.(isMoving := flag)) == GetIntersectPoints(a, b)
  {
    assert GetIntersectPoints(a, b.(isMoving := flag)) == GetIntersectPoints(a, b);
  }

  /** So whether two ships conflict does not depend on any moving flag. */
  lemma ConflictIgnoresFlags(a: seq<ShipView>, b: seq<ShipView>, i: nat, j: nat, mag: Magnitude)
    requires IsMagnitude(mag)
    requires SameButFlags(a, b)
    requires i < |a| && j < |a|
    ensures DoesShipTrajectoryIntersect(b, i, j, mag) == DoesShipTrajectoryIntersect(a, i, j, mag)
  {
    WindowIgnoresFlag(a[i], a[j], b[i].isMoving, mag);
    WindowIgnoresFlag(a[i].(isMoving := b[i].isMoving), a[j], b[j].isMoving, mag);
    WindowIgnoresFlag(a[j], a[i], b[j].isMoving, mag);
    WindowIgnoresFlag(a[j].(isMoving := b[j].isMoving), a[i], b[i].isMoving, mag);
  }

  /** ContinueShipMoving's outcome for ship `i`: it moves exactly when no
      ship it conflicts with makes it stop; the conflicts are those of the
      ships as they were, the stop rule sees the flags already rewritten. */
  lemma ContinueDecides(ships: seq<ShipView>, i: nat, mag: Magnitude)
    requires IsMagnitude(mag)
    requires i < |ships|
    ensures var before := Pass(ships, i, IntersectTest(mag), StopTest(mag));
            Pass(ships, |ships|, IntersectTest(mag), StopTest(mag))[i].isMoving <==>
              forall j :: 0 <= j < |ships| && j != i ==>
                !(DoesShipTrajectoryIntersect(ships, i, j, mag) && DoesNeedToStop(before, i, j, mag))
  {
    var before := Pass(ships, i, IntersectTest(mag), StopTest(mag));
    PassDecides(ships, i, IntersectTest(mag), StopTest(mag));
    PassOnlyFlags(ships, i, IntersectTest(mag), StopTest(mag));
    forall j | 0 <= j < |ships|
      ensures IntersectTest(mag)(before, i, j) == DoesShipTrajectoryIntersect(ships, i, j, mag)
    {
      ConflictIgnoresFlags(ships, before, i, j, mag);
    }
  }

  /** A ship that conflicts with nobody is always set moving. */
  lemma ClearShipAlwaysMoves(ships: seq<ShipView>, i: nat, mag: Magnitude)
    requires IsMagnitude(mag)
    requires i < |ships|
    requires forall j :: 0 <= j < |ships| && j != i ==> !DoesShipTrajectoryIntersect(ships, i, j, mag)
    ensures Pass(ships, |ships|, IntersectTest(mag), StopTest(mag))[i].isMoving
  {
    ContinueDecides(ships, i, mag);
  }

  /** `List.IndexOf`: the first position of `x`, or -1. */
  function IndexOf<T(==)>(s: seq<T>, x: T): (k: int)
    ensures -1 <= k < |s|
    ensures k == -1 <==> x !in s
    ensures 0 <= k ==> s[k] == x && x !in s[..k]
  {
    if s == [] then -1
    else if s[0] == x then 0
    else
      var k := IndexOf(s[1..], x);
      assert s == [s[0]] + s[1..];
      if k == -1 then -1
      else
        assert s[..k + 1] == [s[0]] + s[1..][..k];
        k + 1
  }

  /** `List.Remove`: the list without the first occurrence of `x`, or the
      list itself when `x` is not in it. */
  function RemoveFirst<T(==)>(s: seq<T>, x: T): (r: seq<T>)
    ensures x !in s ==> r == s
    ensures x in s ==> |r| == |s| - 1
    ensures x in s ==> forall k :: 0 <= k < |r| ==> r[k] == (if k < IndexOf(s, x) then s[k] else s[k + 1])
  {
    var k := IndexOf(s, x);
    if k == -1 then s else s[..k] + s[k + 1..]
  }

  /** `List.Remove` takes away exactly one occurrence of `x`, if there is
      one, and nothing else. */
  lemma RemoveFirstCounts<T>(s: seq<T>, x: T)
    ensures multiset(RemoveFirst(s, x)) == multiset(s) - multiset{x}
  {
    var k := IndexOf(s, x);
    if k != -1 {
      assert s == s[..k] + [x] + s[k + 1..];
    }
  }

  /** On a list without repeats, `List.Remove` keeps it without repeats,
      drops `x` and keeps everything else. */
  lemma RemoveFromDistinct<T>(s: seq<T>, x: T)
    requires Distinct(s)
    ensures var r := RemoveFirst(s, x);
            Distinct(r) && x !in r && (forall y :: y in r <==> y in s && y != x)
  {
    var k := IndexOf(s, x);
    if k != -1 {
      DropAt(s, k);
    }
  }

  predicate Distinct<T(==)>(s: seq<T>)
  {
    forall a, b :: 0 <= a < b < |s| ==> s[a] != s[b]
  }

  lemma DropAt<T>(s: seq<T>, k: nat)
    requires Distinct(s) && k < |s|
    ensures var r := s[..k] + s[k + 1..];
            Distinct(r) && s[k] !in r && (forall y :: y in r <==> y in s && y != s[k])
  {
    var r := s[..k] + s[k + 1..];
    assert |r| == |s| - 1;
    assert forall a :: 0 <= a < |r| ==> r[a] == s[if a < k then a else a + 1];
    forall y | y in s && y != s[k]
      ensures y in r
    {
      var j :| 0 <= j < |s| && s[j] == y;
      assert r[if j < k then j else j - 1] == y;
    }
  }

  /** The snapshots of a list of ships that all have a trajectory. */
  function ViewsOf(ships: seq<Ship>): (vs: seq<ShipView>)
    reads set k | 0 <= k < |ships| :: ships[k]
    requires forall k :: 0 <= k < |ships| ==> ships[k].trajectory.Some?
    ensures |vs| == |ships| && forall k :: 0 <= k < |ships| ==> vs[k] == ships[k].View()
  {
    if ships == [] then [] else ViewsOf(ships[..|ships| - 1]) + [ships[|ships| - 1].View()]
  }

  /** The same questions as code the manager runs: a check may be asked
      of any two ships of a list. */
  type PairCheck = (seq<ShipView>, nat, nat) --> bool

  /** `check` answers every in-range question as `test` does. */
  ghost predicate Decides(check: PairCheck, test: PairTest)
  {
    forall ships: seq<ShipView>, i: nat, j: nat :: i < |ships| && j < |ships| ==>
      check.requires(ships, i, j) && check(ships, i, j) == test(ships, i, j)
  }

  /** DoesShipTrajectoryIntersect as the manager calls it. */
  function ConflictCheck(mag: Magnitude): PairCheck
  {
    (ships: seq<ShipView>, i: nat, j: nat) requires IsMagnitude(mag) && i < |ships| && j < |ships| =>
      DoesShipTrajectoryIntersect(ships, i, j, mag)
  }

  /** DoesNeedToStop as the manager calls it. */
  function StopCheck(mag: Magnitude): PairCheck
  {
    (ships: seq<ShipView>, i: nat, j: nat) requires IsMagnitude(mag) && i < |ships| && j < |ships| =>
      DoesNeedToStop(ships, i, j, mag)
  }

  lemma ChecksDecide(mag: Magnitude)
    requires IsMagnitude(mag)
    ensures Decides(ConflictCheck(mag), IntersectTest(mag))
    ensures Decides(StopCheck(mag), StopTest(mag))
  {
  }

  /** ContinueShipMoving's inner loop for ship `i`: it starts out moving
      and every other ship it conflicts with and has to stop for clears
      the flag. */
  method DecideMoving(ships: seq<ShipView>, i: nat, conflict: PairCheck, stop: PairCheck,
                      ghost intersect: PairTest, ghost needToStop: PairTest) returns (isMoving: bool)
    requires i < |ships|
    requires Decides(conflict, intersect) && Decides(stop, needToStop)
    ensures isMoving == KeepsMoving(ships, i, |ships|, intersect, needToStop)
  {
    isMoving := true;
    var j := 0;
    while j < |ships|
      invariant 0 <= j <= |ships|
      invariant isMoving == KeepsMoving(ships, i, j, intersect, needToStop)
    {
      if i != j {
        var doesShipIntersect := conflict(ships, i, j);
        if doesShipIntersect {
          isMoving := isMoving && !stop(ships, i, j);
        }
      }
      j := j + 1;
    }
  }

  /** SpawnShip's loop: the new ship `n` may move only if it conflicts with
      none of the ships listed before it. */
  method ClearOfEarlier(ships: seq<ShipView>, n: nat, conflict: PairCheck, ghost intersect: PairTest) returns (canMove: bool)
    requires n < |ships| && Decides(conflict, intersect)
    ensures canMove <==> forall k :: 0 <= k < n ==> !intersect(ships, n, k)
  {
    canMove := true;
    var i := 0;
    while i < n
      invariant 0 <= i <= n
      invariant canMove <==> forall k :: 0 <= k < i ==> !intersect(ships, n, k)
    {
      var doesLineIntersect := conflict(ships, n, i);
      if doesLineIntersect {
        canMove := false;
      }
      i := i + 1;
    }
  }

  /** Setting the new ship's flag does not change which ships it conflicts
      with. */
  lemma SpawnVerdictIgnoresFlag(placed: seq<ShipView>, after: seq<ShipView>, n: nat, mag: Magnitude)
    requires IsMagnitude(mag)
    requires SameButFlags(placed, after) && n < |placed|
    ensures (forall k :: 0 <= k < n ==> !IntersectTest(mag)(placed, n, k)) <==>
            (forall k :: 0 <= k < n ==> !DoesShipTrajectoryIntersect(after, n, k, mag))
  {
    forall k | 0 <= k < n
      ensures IntersectTest(mag)(placed, n, k) == DoesShipTrajectoryIntersect(after, n, k, mag)
    {
      ConflictIgnoresFlags(placed, after, n, k, mag);
    }
  }

  class ShipManager {
    /** `_ships`. */
    var ships: seq<Ship>

    /** No ship is in the list twice, and every listed ship has been
        initialised. */
    ghost predicate Valid()
      reads this, set k | 0 <= k < |ships| :: ships[k]
    {
      Distinct(ships) && (forall k :: 0 <= k < |ships| ==> ships[k].trajectory.Some?)
    }

    function Views(): (vs: seq<ShipView>)
      reads this, set k | 0 <= k < |ships| :: ships[k]
      requires Valid()
      ensures |vs| == |ships| && forall k :: 0 <= k < |ships| ==> vs[k] == ships[k].View()
    {
      ViewsOf(ships)
    }

    constructor ()
      ensures ships == [] && Valid()
    {
      ships := [];
    }

    /** ContinueShipMoving: every ship in turn gets its moving flag
        rewritten; it keeps moving unless some ship it conflicts with makes
        it stop. Flags are written in place, so a ship's decision sees the
        flags already written for the ships before it. Nothing but the
        moving flags changes. */
    method ContinueShipMoving(mag: Magnitude)
      requires Valid() && IsMagnitude(mag)
      modifies set k | 0 <= k < |ships| :: ships[k]`isMoving
      ensures Valid()
      ensures Views() == Pass(old(Views()), |ships|, IntersectTest(mag), StopTest(mag))
    {
      ChecksDecide(mag);
      RunPass(ConflictCheck(mag), StopCheck(mag), IntersectTest(mag), StopTest(mag));
    }

    /** ContinueShipMoving's outer loop, with its two questions given as
        checks. */
    method RunPass(conflict: PairCheck, stop: PairCheck, ghost intersect: PairTest, ghost needToStop: PairTest)
      requires Valid() && Decides(conflict, intersect) && Decides(stop, needToStop)
      modifies set k | 0 <= k < |ships| :: ships[k]`isMoving
      ensures Valid()
      ensures Views() == Pass(old(Views()), |ships|, intersect, needToStop)
    {
      ghost var initial := Views();
      for i := 0 to |ships|
        invariant Valid() && Views() == Pass(initial, i, intersect, needToStop)
      {
        DecideShip(i, conflict, stop, intersect, needToStop, initial);
      }
    }

    /** One outer iteration: ship `i`'s flag is decided on the list as it
        stands and written in place. */
    method DecideShip(i: nat, conflict: PairCheck, stop: PairCheck, ghost intersect: PairTest, ghost needToStop: PairTest,
                      ghost initial: seq<ShipView>)
      requires Valid() && Decides(conflict, intersect) && Decides(stop, needToStop)
      requires i < |ships| && |initial| == |ships| && Views() == Pass(initial, i, intersect, needToStop)
      modifies {ships[i]}`isMoving
      ensures Valid()
      ensures Views() == Pass(initial, i + 1, intersect, needToStop)
    {
      var isMoving := DecideMoving(Views(), i, conflict, stop, intersect, needToStop);
      WriteDecision(i, isMoving, intersect, needToStop, initial);
    }

    /** `_ships[i].MoveShip(isMoving)` with the flag the pass decided: that
        one flag changes, nothing else. */
    method WriteDecision(i: nat, isMoving: bool, ghost intersect: PairTest, ghost needToStop: PairTest, ghost initial: seq<ShipView>)
      requires Valid() && i < |ships|
      requires |initial| == |ships| && Views() == Pass(initial, i, intersect, needToStop)
      requires isMoving == KeepsMoving(Views(), i, |ships|, intersect, needToStop)
      modifies {ships[i]}`isMoving
      ensures Valid()
      ensures Views() == Pass(initial, i + 1, intersect, needToStop)
    {
      PassStep(initial, i, intersect, needToStop);
      ships[i].MoveShip(isMoving);
      assert Views() == old(Views())[i := old(Views())[i].(isMoving := isMoving)];
    }

    /** SpawnShip: the new ship goes to the end of the list and onto the
        trajectory from `start` to `end` (two random lake points, given
        here); it starts moving only if it conflicts with none of the ships
        already listed (no yield rule here), and the manager subscribes to
        its arrival. */
    method SpawnShip(ship: Ship, start: Vec2, end: Vec2, mag: Magnitude)
      requires Valid() && IsMagnitude(mag)
      requires ship !in ships
      modifies this, ship`trajectory, ship`position, ship`isMoving, ship`listening
      ensures ships == old(ships) + [ship]
      ensures Valid()
      ensures ship.trajectory == Outcomes.Some(Line(start, end)) && ship.position == Lift(start)
      ensures ship.isMoving <==>
                forall k :: 0 <= k < |old(ships)| ==> !DoesShipTrajectoryIntersect(Views(), |old(ships)|, k, mag)
      ensures ship.listening
      ensures Views()[..|old(ships)|] == old(Views())
    {
      var n := |ships|;
      ghost var listed := Views();
      Place(ship, start, end, listed);
      ghost var placed := Views();
      ChecksDecide(mag);
      var canMove := ClearOfEarlier(Views(), n, ConflictCheck(mag), IntersectTest(mag));
      Admit(ship, canMove, placed);
      SpawnVerdictIgnoresFlag(placed, Views(), n, mag);
    }

    /** SpawnShip's first steps: `_ships.Add(ship)` and InitializeShip. */
    method Place(ship: Ship, start: Vec2, end: Vec2, ghost listed: seq<ShipView>)
      requires Valid() && ship !in ships && Views() == listed
      modifies this, ship`trajectory, ship`position
      ensures ships == old(ships) + [ship]
      ensures Valid()
      ensures ship.trajectory == Outcomes.Some(Line(start, end)) && ship.position == Lift(start)
      ensures Views()[..|listed|] == listed
    {
      ghost var before := ships;
      ships := ships + [ship];
      ship.InitializeShip(start, end);
      forall k | 0 <= k < |before|
        ensures ships[k] == before[k] && unchanged(before[k])
      {
        assert before[k] != ship;
      }
      assert Valid();
      forall k | 0 <= k < |listed|
        ensures Views()[k] == listed[k]
      {
      }
      assert Views()[..|listed|] == listed;
    }

    /** SpawnShip's last steps: MoveShip and the subscription to the
        ship's arrival. */
    method Admit(ship: Ship, canMove: bool, ghost placed: seq<ShipView>)
      requires Valid() && |ships| > 0 && ships[|ships| - 1] == ship && Views() == placed
      modifies ship`isMoving, ship`listening
      ensures Valid() && ship.isMoving == canMove && ship.listening
      ensures SameButFlags(placed, Views())
      ensures Views()[..|ships| - 1] == placed[..|ships| - 1]
    {
      ship.MoveShip(canMove);
      ship.AddRemoveListener();
    }

    /** RemoveShipFromList: `List.Remove` of the ship; since no ship is
        listed twice, it is gone afterwards and the others keep their
        order. */
    method RemoveShipFromList(ship: Ship)
      requires Valid()
      modifies this
      ensures Valid()
      ensures ships == RemoveFirst(old(ships), ship)
      ensures ship !in ships
      ensures forall s :: s in old(ships) && s != ship ==> s in ships
    {
      ghost var before := ships;
      RemoveFromDistinct(before, ship);
      ships := RemoveFirst(ships, ship);
      assert forall k :: 0 <= k < |ships| ==> ships[k] in before;
    }
  }
}
