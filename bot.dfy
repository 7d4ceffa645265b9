// The waypoint-following controller of the sailing bot: a fixed course of
// checkpoints, each with a position, an arrival radius and a `reached` flag
// that the controller sets in place, and one tick of steering that marks the
// checkpoints the ship is within and aims at the first one still unreached.

module ShipBot {

  datatype Option<T> = None | Some(value: T)

  /** A point on the globe, in degrees. */
  datatype Location = Location(longitude: real, latitude: real)

  /** A waypoint of the course; `reached` flips to true once and for all. */
  datatype Checkpoint = Checkpoint(latitude: real, longitude: real, radius: real, reached: bool)

  /** The part of the simulator's instructions this controller fills in. */
  datatype Instructions = Instructions(location: Option<Location>, sail: Option<real>)

  /**
   * The great-circle distance between (longitude1, latitude1) and
   * (longitude2, latitude2); it comes from the simulator's utilities and is
   * only assumed to be non-negative.
   */
  type DistanceFn = (real, real, real, real) -> real

  ghost predicate NonNegative(distance: DistanceFn)
  {
    forall lon1, lat1, lon2, lat2 :: distance(lon1, lat1, lon2, lat2) >= 0.0
  }

  /** The norm of a scalar speed. */
  function Abs(x: real): real
  {
    if x < 0.0 then -x else x
  }

  function Position(ch: Checkpoint): Location
  {
    Location(ch.longitude, ch.latitude)
  }

  function DistanceTo(distance: DistanceFn, here: Location, ch: Checkpoint): real
  {
    distance(here.longitude, here.latitude, ch.longitude, ch.latitude)
  }

  predicate RadiiNonNegative(course: seq<Checkpoint>)
  {
    forall i :: 0 <= i < |course| ==> course[i].radius >= 0.0
  }

  /** All reached checkpoints come before all unreached ones. */
  predicate ReachedPrefix(course: seq<Checkpoint>)
  {
    forall i, j :: 0 <= i < j < |course| && course[j].reached ==> course[i].reached
  }

  predicate AllReached(course: seq<Checkpoint>)
  {
    forall i :: 0 <= i < |course| ==> course[i].reached
  }

  // ---------------------------------------------------------------------
  // The course
  // ---------------------------------------------------------------------

  /**
   * The course built when the bot is created: Atlantic, the Panama canal,
   * the Pacific, the Indian Ocean, round Africa and back to `start`, the
   * race's starting point, which has radius 0.
   */
  function InitialCourse(start: Location): (course: seq<Checkpoint>)
    ensures |course| == 16
    ensures RadiiNonNegative(course)
    ensures forall i :: 0 <= i < |course| ==> !course[i].reached
    ensures course[15] == Checkpoint(start.latitude, start.longitude, 0.0, false)
  {
    [ Checkpoint(43.797109, -11.264905, 50.0, false),
      Checkpoint(20.3477869, -70.4968647, 50.0, false),
      Checkpoint(20.3477869, -73.4968647, 50.0, false),
      Checkpoint(18.0, -75.0, 50.0, false),
      Checkpoint(9.36, -80.013, 50.0, false),
      Checkpoint(9.11595, -79.70804, 50.0, false),
      Checkpoint(8.8, -79.5, 50.0, false),
      Checkpoint(3.0, -79.5, 50.0, false),
      Checkpoint(2.806318, -168.943864, 1990.0, false),
      Checkpoint(-31.3536, -195.8203, 50.0, false),
      Checkpoint(-48.8068, -210.5859375, 50.0, false),
      Checkpoint(-15.668984, 77.674694, 1190.0, false),
      Checkpoint(-39.438937, 19.836265, 50.0, false),
      Checkpoint(14.881699, -21.024326, 50.0, false),
      Checkpoint(44.076538, -18.292936, 50.0, false),
      Checkpoint(start.latitude, start.longitude, 0.0, false) ]
  }

  // ---------------------------------------------------------------------
  // One tick, as functions of the course before the tick
  // ---------------------------------------------------------------------

  /** The checkpoint after the reached test of one tick. */
  function Mark(ch: Checkpoint, distance: DistanceFn, here: Location): (marked: Checkpoint)
    ensures marked.reached <==> ch.reached || DistanceTo(distance, here, ch) < ch.radius
    ensures marked.(reached := ch.reached) == ch
  {
    if DistanceTo(distance, here, ch) < ch.radius then ch.(reached := true) else ch
  }

  /**
   * The sail setting for a checkpoint at distance `dist` when the ship
   * covers `jump` in one step: full sail unless the checkpoint is within two
   * radii and one jump, in which case the smaller of radius/jump and 1.
   * For jump == 0 the floating-point quotient radius/jump is +infinity
   * (radius > 0 there, because dist >= 0), so the minimum is 1.
   */
  function Throttle(dist: real, radius: real, jump: real): (sail: real)
    requires dist >= 0.0 && radius >= 0.0
    ensures jump >= 0.0 ==> 0.0 <= sail <= 1.0
    ensures dist >= 2.0 * radius + jump ==> sail == 1.0
    ensures sail != 1.0 ==> dist < 2.0 * radius + jump && jump != 0.0 && sail * jump == radius
    ensures jump >= 0.0 && sail < 1.0 ==> radius < jump
    ensures 0.0 < jump && dist < 2.0 * radius + jump && radius < jump ==> sail == radius / jump
  {
    if dist < 2.0 * radius + jump then
      if jump == 0.0 then 1.0
      else
        var ratio := radius / jump;
        if 1.0 < ratio then 1.0 else ratio
    else
      1.0
  }

  /**
   * The index at which the scan started at `from` stops: the first checkpoint
   * still unreached after its reached test, or |course| if there is none.
   */
  function ActiveFrom(course: seq<Checkpoint>, distance: DistanceFn, here: Location, from: nat): (k: nat)
    requires from <= |course|
    ensures from <= k <= |course|
    ensures forall i :: from <= i < k ==> Mark(course[i], distance, here).reached
    ensures k < |course| ==> !Mark(course[k], distance, here).reached
    decreases |course| - from
  {
    if from == |course| || !Mark(course[from], distance, here).reached then from
    else ActiveFrom(course, distance, here, from + 1)
  }

  /** The index of the active target of the tick (|course| when none is left). */
  function ActiveIndex(course: seq<Checkpoint>, distance: DistanceFn, here: Location): (k: nat)
    ensures k <= |course|
    ensures forall i :: 0 <= i < k ==> Mark(course[i], distance, here).reached
    ensures k < |course| ==> !Mark(course[k], distance, here).reached
  {
    ActiveFrom(course, distance, here, 0)
  }

  /**
   * The course after one tick: every checkpoint up to the active target has
   * been through the reached test, the ones after it are as they were.
   */
  function Advance(course: seq<Checkpoint>, distance: DistanceFn, here: Location): (next: seq<Checkpoint>)
    ensures |next| == |course|
    ensures forall i :: 0 <= i < |course| ==>
      Position(next[i]) == Position(course[i]) && next[i].radius == course[i].radius
  {
    var k := ActiveIndex(course, distance, here);
    seq(|course|, i requires 0 <= i < |course| =>
      if i <= k then Mark(course[i], distance, here) else course[i])
  }

  /**
   * The instructions of one tick: the location of the active target, if
   * any, and the sail computed for the last checkpoint examined (the active
   * target, or the final checkpoint when all are reached).
   */
  function Steer(course: seq<Checkpoint>, distance: DistanceFn, here: Location, jump: real): (out: Instructions)
    requires NonNegative(distance) && RadiiNonNegative(course)
    ensures out.sail.Some? <==> |course| > 0
  {
    var k := ActiveIndex(course, distance, here);
    var n := |course|;
    var location := if k < n then Some(Position(course[k])) else None;
    if n == 0 then Instructions(location, None)
    else
      var m := if k < n then k else n - 1;
      Instructions(location, Some(Throttle(DistanceTo(distance, here, course[m]), course[m].radius, jump)))
  }

  /** The course after a sequence of ticks at the successive positions `fixes`. */
  function Voyage(course: seq<Checkpoint>, distance: DistanceFn, fixes: seq<Location>): (last: seq<Checkpoint>)
    ensures |last| == |course|
    decreases |fixes|
  {
    if fixes == [] then course
    else Voyage(Advance(course, distance, fixes[0]), distance, fixes[1..])
  }

  // ---------------------------------------------------------------------
  // What one tick guarantees
  // ---------------------------------------------------------------------

  /** A tick only ever sets reached flags, and changes nothing else. */
  lemma ReachedMonotone(course: seq<Checkpoint>, distance: DistanceFn, here: Location)
    ensures var next := Advance(course, distance, here);
      forall i :: 0 <= i < |course| ==>
        (course[i].reached ==> next[i].reached) && next[i].(reached := course[i].reached) == course[i]
  {
  }

  /**
   * A checkpoint is examined when every one before it is reached after the
   * tick; it then ends reached exactly when it was already or the ship is
   * strictly within its radius.
   */
  lemma ExaminedReachedIff(course: seq<Checkpoint>, distance: DistanceFn, here: Location)
    ensures var next := Advance(course, distance, here);
      forall i :: 0 <= i < |course| && AllReached(next[..i]) ==>
        (next[i].reached <==> course[i].reached || DistanceTo(distance, here, course[i]) < course[i].radius)
  {
  }

  /** Nothing after the first checkpoint left unreached is looked at or changed. */
  lemma UntouchedBeyondTarget(course: seq<Checkpoint>, distance: DistanceFn, here: Location)
    ensures var next := Advance(course, distance, here);
      forall i, j :: 0 <= i < j < |course| && !next[i].reached ==> next[j] == course[j]
  {
  }

  /** A tick keeps the reached flags a prefix of the course. */
  lemma PrefixPreserved(course: seq<Checkpoint>, distance: DistanceFn, here: Location)
    requires ReachedPrefix(course)
    ensures ReachedPrefix(Advance(course, distance, here))
  {
  }

  /**
   * The location instruction is set exactly when some checkpoint is still
   * unreached after the tick, and then it is the position of the first such
   * checkpoint.
   */
  lemma TargetIsFirstUnreached(course: seq<Checkpoint>, distance: DistanceFn, here: Location, jump: real)
    requires NonNegative(distance) && RadiiNonNegative(course)
    ensures var next := Advance(course, distance, here);
      var out := Steer(course, distance, here, jump);
      (out.location.None? <==> AllReached(next)) &&
      (out.location.Some? ==> exists k :: 0 <= k < |next| && AllReached(next[..k]) && !next[k].reached
                                         && out.location.value == Position(next[k]))
  {
  }

  /**
   * The sail is the throttle of the last checkpoint examined: the first one
   * left unreached, or the final one when the scan ran off the end.
   */
  lemma SailOfLastExamined(course: seq<Checkpoint>, distance: DistanceFn, here: Location, jump: real)
    requires NonNegative(distance) && RadiiNonNegative(course)
    ensures var next := Advance(course, distance, here);
      var out := Steer(course, distance, here, jump);
      forall m :: 0 <= m < |course| && AllReached(next[..m]) && (!next[m].reached || m == |course| - 1) ==>
        out.sail == Some(Throttle(DistanceTo(distance, here, course[m]), course[m].radius, jump))
  {
  }

  /** With a non-negative step length the sail lies between 0 and 1. */
  lemma SailInUnitRange(course: seq<Checkpoint>, distance: DistanceFn, here: Location, jump: real)
    requires NonNegative(distance) && RadiiNonNegative(course) && jump >= 0.0
    ensures var sail := Steer(course, distance, here, jump).sail;
      sail.Some? ==> 0.0 <= sail.value <= 1.0
  {
  }

  /**
   * A final checkpoint of radius 0 is never reached, since no distance is
   * below 0; so the ship always has a location to steer to.
   */
  lemma FinalCheckpointNeverReached(course: seq<Checkpoint>, distance: DistanceFn, here: Location, jump: real)
    requires NonNegative(distance) && RadiiNonNegative(course)
    requires |course| > 0 && course[|course| - 1].radius == 0.0 && !course[|course| - 1].reached
    ensures var next := Advance(course, distance, here);
      !next[|course| - 1].reached && Steer(course, distance, here, jump).location.Some?
  {
  }

  /**
   * Several checkpoints can be reached in one tick: a ship 10 away from every
   * checkpoint passes both 50-radius checkpoints at once and is sent to the
   * third, which it is within one jump of, so the sail drops to 0.
   */
  lemma TwoReachedInOneTick(a: Location, b: Location, c: Location, here: Location)
    ensures var course := [Checkpoint(a.latitude, a.longitude, 50.0, false),
                           Checkpoint(b.latitude, b.longitude, 50.0, false),
                           Checkpoint(c.latitude, c.longitude, 0.0, false)];
      var distance := (lon1: real, lat1: real, lon2: real, lat2: real) => 10.0;
      var next := Advance(course, distance, here);
      next[0].reached && next[1].reached && !next[2].reached &&
      Steer(course, distance, here, 20.0) == Instructions(Some(c), Some(0.0))
  {
  }

  /** Sail settings on the approach: braking only when the radius is shorter than a jump. */
  lemma ThrottleScenarios()
    ensures Throttle(150.0, 50.0, 1.0) == 1.0
    ensures Throttle(105.0, 50.0, 10.0) == 1.0
    ensures Throttle(55.0, 5.0, 50.0) == 0.1
    ensures Throttle(0.0, 0.0, 10.0) == 0.0
  {
  }

  // ---------------------------------------------------------------------
  // What a whole run guarantees
  // ---------------------------------------------------------------------

  /** Once reached, a checkpoint stays reached for the rest of the run. */
  lemma {:induction false} VoyageKeepsReached(course: seq<Checkpoint>, distance: DistanceFn, fixes: seq<Location>, i: nat)
    requires i < |course| && course[i].reached
    ensures Voyage(course, distance, fixes)[i].reached
    decreases |fixes|
  {
    if fixes != [] {
      var next := Advance(course, distance, fixes[0]);
      ReachedMonotone(course, distance, fixes[0]);
      VoyageKeepsReached(next, distance, fixes[1..], i);
    }
  }

  /** The reached flags stay a prefix of the course for the whole run. */
  lemma {:induction false} VoyageKeepsPrefix(course: seq<Checkpoint>, distance: DistanceFn, fixes: seq<Location>)
    requires ReachedPrefix(course)
    ensures ReachedPrefix(Voyage(course, distance, fixes))
    decreases |fixes|
  {
    if fixes != [] {
      PrefixPreserved(course, distance, fixes[0]);
      VoyageKeepsPrefix(Advance(course, distance, fixes[0]), distance, fixes[1..]);
    }
  }

  /**
   * Starting from the initial course, however the ship moves, the start
   * checkpoint is never reached and every tick sets a location.
   */
  lemma {:induction false} VoyageNeverFinishes(start: Location, distance: DistanceFn, fixes: seq<Location>, here: Location, jump: real)
    requires NonNegative(distance)
    ensures var course := Voyage(InitialCourse(start), distance, fixes);
      RadiiNonNegative(course) && Steer(course, distance, here, jump).location.Some?
  {
    var c := InitialCourse(start);
    FinalLegStaysOpen(c, distance, fixes);
    FinalCheckpointNeverReached(Voyage(c, distance, fixes), distance, here, jump);
  }

  lemma {:induction false} FinalLegStaysOpen(course: seq<Checkpoint>, distance: DistanceFn, fixes: seq<Location>)
    requires NonNegative(distance) && RadiiNonNegative(course)
    requires |course| > 0 && course[|course| - 1].radius == 0.0 && !course[|course| - 1].reached
    ensures var last := Voyage(course, distance, fixes);
      RadiiNonNegative(last) && last[|course| - 1].radius == 0.0 && !last[|course| - 1].reached
    decreases |fixes|
  {
    if fixes != [] {
      var next := Advance(course, distance, fixes[0]);
      FinalCheckpointNeverReached(course, distance, fixes[0], 0.0);
      FinalLegStaysOpen(next, distance, fixes[1..]);
    }
  }

  // ---------------------------------------------------------------------
  // The bot
  // ---------------------------------------------------------------------

  class Bot {
    const course: array<Checkpoint>

    ghost predicate Valid()
      reads course
    {
      RadiiNonNegative(course[..]) && ReachedPrefix(course[..])
    }

    /** Builds the course; `start` is the race's starting point. */
    constructor (start: Location)
      ensures Valid() && fresh(course)
      ensures course[..] == InitialCourse(start)
    {
      var c := InitialCourse(start);
      course := new Checkpoint[|c|](i requires 0 <= i < |c| => c[i]);
      new;
      assert course[..] == c;
    }

    /**
     * One time step: `dt` is the step in hours, (longitude, latitude) the
     * ship's position, `speed` its speed and `distance` the simulator's
     * great-circle distance.
     */
    method Run(dt: real, longitude: real, latitude: real, speed: real, distance: DistanceFn)
      returns (instructions: Instructions)
      requires Valid() && NonNegative(distance)
      modifies course
      ensures Valid()
      ensures course[..] == Advance(old(course[..]), distance, Location(longitude, latitude))
      ensures instructions == Steer(old(course[..]), distance, Location(longitude, latitude), dt * Abs(speed))
    {
      ghost var here := Location(longitude, latitude);
      ghost var before := course[..];
      ghost var k := ActiveIndex(before, distance, here);
      var location: Option<Location> := None;
      var sail: Option<real> := None;
      var i := 0;
      while i < course.Length
        invariant i <= k
        invariant forall h :: 0 <= h < i ==> course[h] == Mark(before[h], distance, here)
        invariant forall h :: i <= h < course.Length ==> course[h] == before[h]
        invariant location == None
        invariant sail == if i == 0 then None
                          else Some(Throttle(DistanceTo(distance, here, before[i - 1]), before[i - 1].radius, dt * Abs(speed)))
      {
        var ch := course[i];
        var dist := distance(longitude, latitude, ch.longitude, ch.latitude);
        var jump := dt * Abs(speed);
        sail := Some(Throttle(dist, ch.radius, jump));
        if dist < ch.radius {
          ch := ch.(reached := true);
          course[i] := ch;
        }
        if !ch.reached {
          location := Some(Location(ch.longitude, ch.latitude));
          break;
        }
        i := i + 1;
      }
      instructions := Instructions(location, sail);
      PrefixPreserved(before, distance, here);
    }
  }
}
