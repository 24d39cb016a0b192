/** Ship.cs: one ship on the lake. It carries its trajectory, its position
    (the transform's local position), a moving flag and the event through
    which it asks the manager to drop it from the list on arrival. */
module Ships {
  import opened Geometry
  import opened Lines
  import opened Outcomes

  /** A ship's speed in lake units per second; strictly positive so that a
      distance can be turned into a time. */
  type Speed = r: real | 0.0 < r witness 1.0

  /** What the manager reads of a ship: the two side edges of the swept
      strip, the 2x2 corner offsets (row 0 front, row 1 back; column 0 left,
      column 1 right), the speed, the trajectory, the position and the
      moving flag. */
  datatype ShipView = ShipView(
    leftTrajectory: Line,
    rightTrajectory: Line,
    sizeOffset: Grid2<Vec3>,
    speed: Speed,
    trajectory: Line,
    position: Vec3,
    isMoving: bool)

  class Ship {
    /** Given per ship; how the game derives them is not part of this model. */
    const leftTrajectory: Line
    const rightTrajectory: Line
    const sizeOffset: Grid2<Vec3>
    const speed: Speed

    /** `_trajectory`; null until InitializeShip. */
    var trajectory: Option<Line>
    /** `transform.localPosition`. */
    var position: Vec3
    /** `_isMoving`. */
    var isMoving: bool
    /** `RemoveFromListEvent` is not null. */
    var removeEventSet: bool
    /** The manager's RemoveShipFromList is registered on the event. */
    var listening: bool
    /** `Destroy(this)` has been requested. */
    var destroyRequested: bool

    /** A ship as instantiated from the template: not moving, no trajectory
        yet, a fresh event with no listener. */
    constructor (left: Line, right: Line, offsets: Grid2<Vec3>, shipSpeed: Speed, at: Vec3)
      ensures leftTrajectory == left && rightTrajectory == right
      ensures sizeOffset == offsets && speed == shipSpeed && position == at
      ensures trajectory == None && !isMoving
      ensures removeEventSet && !listening && !destroyRequested
    {
      leftTrajectory, rightTrajectory := left, right;
      sizeOffset, speed := offsets, shipSpeed;
      position := at;
      trajectory := None;
      isMoving := false;
      removeEventSet, listening, destroyRequested := true, false, false;
    }

    /** The manager's snapshot of this ship, once it has a trajectory. */
    function View(): (v: ShipView)
      reads this
      requires trajectory.Some?
      ensures v.trajectory == trajectory.value && v.position == position && v.isMoving == isMoving
      ensures v.leftTrajectory == leftTrajectory && v.rightTrajectory == rightTrajectory
      ensures v.sizeOffset == sizeOffset && v.speed == speed
    {
      ShipView(leftTrajectory, rightTrajectory, sizeOffset, speed, trajectory.value, position, isMoving)
    }

    /** GetTrajectory: the stored trajectory, as it is. */
    function GetTrajectory(): (t: Option<Line>)
      reads this
      ensures t == trajectory
    {
      trajectory
    }

    /** MoveShip: sets the moving flag and nothing else. */
    method MoveShip(moving: bool)
      modifies this`isMoving
      ensures isMoving == moving
    {
      isMoving := moving;
    }

    /** InitializeShip with the position part of SetUpShipTransform: the
        trajectory becomes the segment from `start` to `end`, and the ship is
        placed at `start`. */
    method InitializeShip(start: Vec2, end: Vec2)
      modifies this`trajectory, this`position
      ensures trajectory == Some(Line(start, end))
      ensures trajectory.value.startPoint == start && trajectory.value.endPoint == end
      ensures position == Lift(start)
    {
      trajectory := Some(Line(start, end));
      position := Lift(trajectory.value.startPoint);
    }

    /** One frame of Update. A ship that is not moving is left alone. A
        moving ship steps towards the end of its trajectory by at most
        `speed * deltaTime`; when it lands exactly on the end it raises its
        removal event (if the event is still set) and asks to be destroyed.
        `notified` says whether the event was raised with this ship. A
        moving ship without a trajectory stops at the null dereference
        before changing anything. */
    method Update(deltaTime: real, mag: Magnitude) returns (notified: bool)
      requires IsMagnitude(mag)
      requires 0.0 <= deltaTime
      modifies this`position, this`destroyRequested
      ensures !old(isMoving) || old(trajectory).None? ==>
                !notified && position == old(position) && destroyRequested == old(destroyRequested)
      ensures old(isMoving) && old(trajectory).Some? ==>
                var from, end := Flatten(old(position)), trajectory.value.endPoint;
                var step := speed * deltaTime;
                var arrived := Length2(mag, end.Sub(from)) <= step;
                position.z == 0.0 &&
                Length2(mag, Flatten(position).Sub(from)) <= step &&
                (arrived <==> position == Lift(end)) &&
                (!arrived ==> Length2(mag, end.Sub(Flatten(position))) == Length2(mag, end.Sub(from)) - step) &&
                (notified <==> arrived && removeEventSet) &&
                destroyRequested == (arrived || old(destroyRequested))
    {
      notified := false;
      if !isMoving {
        return;
      }
      if trajectory.None? {
        return;
      }
      NonNegMul(speed, deltaTime);
      var next := MoveTowards(Flatten(position), trajectory.value.endPoint, speed * deltaTime, mag);
      Advance(Flatten(position), trajectory.value.endPoint, speed * deltaTime, mag);
      position := Lift(next);
      if position == Lift(trajectory.value.endPoint) {
        notified := removeEventSet;
        destroyRequested := true;
      }
    }

    /** What one MoveTowards step means for the ship's position in the
        plane. */
    static lemma Advance(from: Vec2, end: Vec2, step: real, mag: Magnitude)
      requires IsMagnitude(mag) && 0.0 <= step
      ensures var next := MoveTowards(from, end, step, mag);
              var arrived := Length2(mag, end.Sub(from)) <= step;
              Lift(next).z == 0.0 && Flatten(Lift(next)) == next &&
              Length2(mag, next.Sub(from)) <= step &&
              (arrived <==> Lift(next) == Lift(end)) &&
              (!arrived ==> Length2(mag, end.Sub(next)) == Length2(mag, end.Sub(from)) - step)
    {
    }

    /** `RemoveFromListEvent.AddListener(...)`: the manager subscribes to
        this ship's arrival. */
    method AddRemoveListener()
      modifies this`listening
      ensures listening
    {
      listening := true;
    }

    /** OnDestroy: the removal event is dropped, so nobody is notified any
        more. */
    method OnDestroy()
      modifies this`removeEventSet
      ensures !removeEventSet
    {
      removeEventSet := false;
    }
  }
}
