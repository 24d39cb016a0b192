/** Unity's vector value types (Vector2, Vector3) over the reals, the few
    scalar helpers of System.Math and UnityEngine.Mathf the game uses, and the
    engine's Vector2.MoveTowards.

    The reals have no square root, so a vector's `magnitude` is taken from a
    function parameter `mag`; `IsMagnitude(mag)` says it is the Euclidean
    length (non-negative, and its square is the squared magnitude). */
module Geometry {

  /** Vector2: a plain 2D value. */
  datatype Vec2 = Vec2(x: real, y: real)
  {
    function Add(o: Vec2): Vec2 { Vec2(x + o.x, y + o.y) }
    function Sub(o: Vec2): Vec2 { Vec2(x - o.x, y - o.y) }
    function Scale(k: real): Vec2 { Vec2(x * k, y * k) }
    function SqrMagnitude(): real { x * x + y * y }
  }

  /** Vector3: a plain 3D value. */
  datatype Vec3 = Vec3(x: real, y: real, z: real)
  {
    function Add(o: Vec3): Vec3 { Vec3(x + o.x, y + o.y, z + o.z) }
    function Sub(o: Vec3): Vec3 { Vec3(x - o.x, y - o.y, z - o.z) }
    function Scale(k: real): Vec3 { Vec3(x * k, y * k, z * k) }
    function Dot(o: Vec3): real { x * o.x + y * o.y + z * o.z }
    function Cross(o: Vec3): Vec3 { Vec3(y * o.z - z * o.y, z * o.x - x * o.z, x * o.y - y * o.x) }
    function SqrMagnitude(): real { x * x + y * y + z * z }
  }

  const Zero3: Vec3 := Vec3(0.0, 0.0, 0.0)

  /** The implicit conversion Vector2 -> Vector3 (z becomes 0). */
  function Lift(v: Vec2): Vec3 { Vec3(v.x, v.y, 0.0) }

  /** The implicit conversion Vector3 -> Vector2 (z is dropped). */
  function Flatten(v: Vec3): Vec2 { Vec2(v.x, v.y) }

  /** The z component of the cross product of two vectors of the xy-plane. */
  function Cross2(a: Vec2, b: Vec2): real { a.x * b.y - a.y * b.x }

  /** A length function standing for Unity's `magnitude`. */
  type Magnitude = Vec3 -> real

  /** `mag` is the Euclidean length. */
  ghost predicate IsMagnitude(mag: Magnitude)
  {
    forall v: Vec3 :: IsLengthOf(mag, v)
  }

  /** `mag(v)` is non-negative and squares to the squared magnitude of `v`. */
  ghost predicate IsLengthOf(mag: Magnitude, v: Vec3)
  {
    0.0 <= mag(v) && mag(v) * mag(v) == v.SqrMagnitude()
  }

  /** What IsMagnitude says of one vector. */
  lemma LengthOf(mag: Magnitude, v: Vec3)
    requires IsMagnitude(mag)
    ensures 0.0 <= mag(v) && mag(v) * mag(v) == v.SqrMagnitude()
  {
    assert IsLengthOf(mag, v);
  }

  /** Vector2.magnitude. */
  function Length2(mag: Magnitude, v: Vec2): real { mag(Lift(v)) }

  function Abs(a: real): real { if a < 0.0 then -a else a }

  /** Math.Min and Math.Max on floats (no NaN here). */
  function Min(a: real, b: real): real { if a <= b then a else b }
  function Max(a: real, b: real): real { if a >= b then a else b }

  /** System.Math.Sign: -1, 0 or 1. */
  function Sign(a: real): (s: int)
    ensures s == 1 <==> 0.0 < a
    ensures s == -1 <==> a < 0.0
    ensures s == 0 <==> a == 0.0
  {
    if a < 0.0 then -1 else if a > 0.0 then 1 else 0
  }

  /** A 2x2 array `a[i, j]`, written out as its four cells. */
  datatype Grid2<T> = Grid2(at00: T, at01: T, at10: T, at11: T)

  /** An index below `n` is its own remainder. */
  lemma ModBelow(a: nat, n: nat)
    requires a < n
    ensures a % n == a
  {
  }

  /** An index between `n` and `2n` wraps round once. */
  lemma ModWrap(a: nat, n: nat)
    requires n <= a < 2 * n
    ensures a % n == a - n
  {
  }

  /** Products of non-negative and of positive factors. */
  lemma NonNegMul(a: real, b: real)
    requires 0.0 <= a && 0.0 <= b
    ensures 0.0 <= a * b
  {}

  lemma PosMul(a: real, b: real)
    requires 0.0 < a && 0.0 < b
    ensures 0.0 < a * b
  {}

  /** Comparing two non-negative numbers through their squares. */
  lemma SquareLe(a: real, b: real)
    requires 0.0 <= a && 0.0 <= b && a * a <= b * b
    ensures a <= b
  {
    if b < a {
      assert (a - b) * (a + b) == a * a - b * b;
      PosMul(a - b, a + b);
    }
  }

  lemma SquareLt(a: real, b: real)
    requires 0.0 <= a && 0.0 <= b && a * a < b * b
    ensures a < b
  {
    if b <= a {
      assert (a - b) * (a + b) == a * a - b * b;
      NonNegMul(a - b, a + b);
    }
  }

  lemma SquaresDetermineNonNegatives(a: real, b: real)
    requires 0.0 <= a && 0.0 <= b && a * a == b * b
    ensures a == b
  {
    SquareLe(a, b);
    SquareLe(b, a);
  }

  /** A non-negative number whose square is zero is zero. */
  lemma SquareZero(m: real, p: real)
    requires 0.0 <= m && p == m * m && p == 0.0
    ensures m == 0.0
  {
    if m != 0.0 {
      DivideSquare(m, p);
    }
  }

  lemma DivideSquare(m: real, p: real)
    requires m != 0.0 && p == m * m
    ensures p / m == m
  {}

  /** A Euclidean length is zero exactly when the squared length is. */
  lemma MagnitudeZero(mag: Magnitude, v: Vec3)
    requires IsMagnitude(mag)
    ensures 0.0 <= mag(v)
    ensures mag(v) == 0.0 <==> v.SqrMagnitude() == 0.0
  {
    var m, p := mag(v), v.SqrMagnitude();
    LengthOf(mag, v);
    if p == 0.0 {
      SquareZero(m, p);
    }
  }

  /** Vector2.magnitude is the Euclidean length of the 2D vector. */
  lemma Length2Facts(mag: Magnitude, v: Vec2)
    requires IsMagnitude(mag)
    ensures 0.0 <= Length2(mag, v) && Length2(mag, v) * Length2(mag, v) == v.SqrMagnitude()
    ensures Length2(mag, v) == 0.0 <==> v.SqrMagnitude() == 0.0
  {
    assert Lift(v).SqrMagnitude() == v.SqrMagnitude();
    LengthOf(mag, Lift(v));
    MagnitudeZero(mag, Lift(v));
  }

  /** A Euclidean length scales with the absolute value of the factor. */
  lemma {:induction false} MagnitudeScale(mag: Magnitude, v: Vec3, k: real)
    requires IsMagnitude(mag)
    ensures mag(v.Scale(k)) == Abs(k) * mag(v)
  {
    var m, mk := mag(v), mag(v.Scale(k));
    LengthOf(mag, v);
    LengthOf(mag, v.Scale(k));
    assert v.Scale(k).SqrMagnitude() == k * k * v.SqrMagnitude();
    assert (Abs(k) * m) * (Abs(k) * m) == k * k * (m * m);
    assert 0.0 <= Abs(k) * m;
    SquaresDetermineNonNegatives(mk, Abs(k) * m);
  }

  /** Unity's Vector2.MoveTowards: the target itself when it is within
      `maxDistanceDelta` (or already reached), otherwise the point that
      distance further along the straight line to the target. */
  function MoveTowards(current: Vec2, target: Vec2, maxDistanceDelta: real, mag: Magnitude): (r: Vec2)
    requires IsMagnitude(mag)
    ensures 0.0 <= maxDistanceDelta ==>
              (r == target <==> Length2(mag, target.Sub(current)) <= maxDistanceDelta)
    ensures 0.0 <= maxDistanceDelta ==> Length2(mag, r.Sub(current)) <= maxDistanceDelta
    ensures 0.0 <= maxDistanceDelta && r != target ==>
              Length2(mag, r.Sub(current)) == maxDistanceDelta &&
              Length2(mag, target.Sub(r)) == Length2(mag, target.Sub(current)) - maxDistanceDelta
  {
    var toVector := target.Sub(current);
    var sqDist := toVector.SqrMagnitude();
    if sqDist == 0.0 || (maxDistanceDelta >= 0.0 && sqDist <= maxDistanceDelta * maxDistanceDelta) then
      SnapFacts(current, target, maxDistanceDelta, mag);
      target
    else
      StepFacts(current, target, maxDistanceDelta, mag);
      current.Add(toVector.Scale(maxDistanceDelta / Length2(mag, toVector)))
  }

  lemma SnapFacts(current: Vec2, target: Vec2, maxDelta: real, mag: Magnitude)
    requires IsMagnitude(mag)
    requires var sqDist := target.Sub(current).SqrMagnitude();
             sqDist == 0.0 || (maxDelta >= 0.0 && sqDist <= maxDelta * maxDelta)
    ensures 0.0 <= maxDelta ==> Length2(mag, target.Sub(current)) <= maxDelta
  {
    if 0.0 <= maxDelta {
      WithinReach(mag, target.Sub(current), maxDelta);
    }
  }

  lemma WithinReach(mag: Magnitude, v: Vec2, maxDelta: real)
    requires IsMagnitude(mag)
    requires 0.0 <= maxDelta
    requires v.SqrMagnitude() == 0.0 || v.SqrMagnitude() <= maxDelta * maxDelta
    ensures Length2(mag, v) <= maxDelta
  {
    Length2Facts(mag, v);
    SnapWithinReach(Length2(mag, v), v.SqrMagnitude(), maxDelta);
  }

  lemma StepFacts(current: Vec2, target: Vec2, maxDelta: real, mag: Magnitude)
    requires IsMagnitude(mag)
    requires var sqDist := target.Sub(current).SqrMagnitude();
             !(sqDist == 0.0 || (maxDelta >= 0.0 && sqDist <= maxDelta * maxDelta))
    ensures 0.0 < Length2(mag, target.Sub(current))
    ensures var toVector := target.Sub(current);
            var r := current.Add(toVector.Scale(maxDelta / Length2(mag, toVector)));
            0.0 <= maxDelta ==>
              maxDelta < Length2(mag, toVector) && r != target &&
              Length2(mag, r.Sub(current)) == maxDelta &&
              Length2(mag, target.Sub(r)) == Length2(mag, toVector) - maxDelta
  {
    var toVector := target.Sub(current);
    var dist := Length2(mag, toVector);
    Length2Facts(mag, toVector);
    if 0.0 <= maxDelta {
      SquareLt(maxDelta, dist);
      StepAlong(current, toVector, maxDelta, mag);
      assert current.Add(toVector) == target;
    }
  }

  /** The target is snapped to only when it is within reach. */
  lemma SnapWithinReach(dist: real, sqDist: real, maxDelta: real)
    requires 0.0 <= dist && dist * dist == sqDist && 0.0 <= maxDelta
    requires sqDist == 0.0 || sqDist <= maxDelta * maxDelta
    ensures dist <= maxDelta
  {
    if sqDist == 0.0 {
      SquareZero(dist, sqDist);
    } else {
      SquareLe(dist, maxDelta);
    }
  }

  /** A part of a positive length is a fraction in [0, 1] of it. */
  lemma FractionOf(part: real, len: real)
    requires 0.0 <= part <= len && 0.0 < len
    ensures 0.0 <= part / len <= 1.0 && (part / len) * len == part
  {
    var t, r := part / len, 1.0 / len;
    assert t == part * r;
    NonNegMul(part, r);
    assert (len - part) * r == 1.0 - t;
    NonNegMul(len - part, r);
  }

  /** A step of `maxDelta` along `toVector` covers exactly that distance and
      leaves the rest of the way to go. */
  lemma StepAlong(current: Vec2, toVector: Vec2, maxDelta: real, mag: Magnitude)
    requires IsMagnitude(mag)
    requires 0.0 < Length2(mag, toVector)
    ensures var r := current.Add(toVector.Scale(maxDelta / Length2(mag, toVector)));
            0.0 <= maxDelta < Length2(mag, toVector) ==>
              Length2(mag, r.Sub(current)) == maxDelta &&
              Length2(mag, current.Add(toVector).Sub(r)) == Length2(mag, toVector) - maxDelta
  {
    var dist := Length2(mag, toVector);
    var k := maxDelta / dist;
    var r := current.Add(toVector.Scale(k));
    if 0.0 <= maxDelta < dist {
      FractionOf(maxDelta, dist);
      assert r.Sub(current) == toVector.Scale(k);
      assert Lift(toVector.Scale(k)) == Lift(toVector).Scale(k);
      MagnitudeScale(mag, Lift(toVector), k);
      assert k * dist == maxDelta;
      assert current.Add(toVector).Sub(r) == toVector.Scale(1.0 - k);
      assert Lift(toVector.Scale(1.0 - k)) == Lift(toVector).Scale(1.0 - k);
      MagnitudeScale(mag, Lift(toVector), 1.0 - k);
      assert (1.0 - k) * dist == dist - maxDelta;
    }
  }
}
