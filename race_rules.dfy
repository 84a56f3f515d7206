/**
 * The per-frame rules of the SpaceRacer simulation, stated as pure functions:
 * the velocity controller, the heading accumulator, the radial step of one
 * obstacle, the countdown clock, the pickup distance test and the count of
 * active power-up slots. The class in module Racer applies them in place.
 */
module RaceRules {

  // Tuned constants of SpaceRacer.display and of the SpaceRacer constructor.
  const Acceleration: real := 0.02
  const Deceleration: real := 0.02
  const MaxSpeed: real := 1.5
  const AngleToRotate: real := 0.075
  const InnerRadius: real := 70.0
  const OuterRadius: real := 85.0
  const BandMargin: real := 10.0
  const ClampBuffer: real := 0.1
  const TimerSlots: nat := 12
  const TargetActive: nat := 3
  const CollisionThreshold: real := 3.0
  const TimerBonus: int := 5
  const InitialSeconds: int := 30
  const ObstacleCount: nat := 30

  /** The band an obstacle's distance from the centre is clamped into. */
  const BandLow: real := InnerRadius - BandMargin
  const BandHigh: real := OuterRadius + BandMargin

  function Abs(x: real): real { if x < 0.0 then -x else x }

  /** JavaScript's Math.min and Math.max on two numbers. */
  function Min(a: real, b: real): real { if a <= b then a else b }
  function Max(a: real, b: real): real { if a >= b then a else b }

  // ---------------------------------------------------------------- velocity

  /**
   * One frame of the velocity controller. ArrowUp wins over ArrowDown; with
   * neither held the velocity relaxes toward 0 without crossing it.
   */
  function NextVelocity(v: real, up: bool, down: bool): (r: real)
    ensures -MaxSpeed <= v <= MaxSpeed ==> -MaxSpeed <= r <= MaxSpeed
    ensures up ==> r <= MaxSpeed
    ensures up && v + Acceleration <= MaxSpeed ==> r == v + Acceleration
    ensures up && v + Acceleration > MaxSpeed ==> r == MaxSpeed
    ensures !up && down ==> r >= -MaxSpeed
    ensures !up && down && v - Acceleration >= -MaxSpeed ==> r == v - Acceleration
    ensures !up && down && v - Acceleration < -MaxSpeed ==> r == -MaxSpeed
    ensures !up && !down ==> r * v >= 0.0 && Abs(r) <= Abs(v)
    ensures !up && !down ==> Abs(r) == Max(0.0, Abs(v) - Deceleration)
  {
    if up then Min(MaxSpeed, v + Acceleration)
    else if down then Max(-MaxSpeed, v - Acceleration)
    else if v > 0.0 then Max(0.0, v - Deceleration)
    else if v < 0.0 then Min(0.0, v + Deceleration)
    else v
  }

  /** Holding ArrowUp makes ArrowDown irrelevant. */
  lemma ArrowUpTakesPrecedence(v: real, down: bool)
    ensures NextVelocity(v, true, down) == NextVelocity(v, true, false)
  {
  }

  /** Velocity after a run of frames, each giving (ArrowUp, ArrowDown). */
  function VelocityAfter(v: real, keys: seq<(bool, bool)>): real
  {
    if keys == [] then v
    else NextVelocity(VelocityAfter(v, keys[..|keys| - 1]), keys[|keys| - 1].0, keys[|keys| - 1].1)
  }

  /** Starting inside [-max_speed, max_speed] the velocity never leaves it. */
  lemma {:induction false} VelocityStaysBounded(v: real, keys: seq<(bool, bool)>)
    requires -MaxSpeed <= v <= MaxSpeed
    ensures -MaxSpeed <= VelocityAfter(v, keys) <= MaxSpeed
  {
    if keys != [] {
      VelocityStaysBounded(v, keys[..|keys| - 1]);
    }
  }

  /** Releasing every key stops the craft after finitely many frames. */
  lemma {:induction false} CoastingComesToRest(v: real, n: nat)
    requires n as real * Deceleration >= Abs(v)
    ensures VelocityAfter(v, seq(n, _ => (false, false))) == 0.0
  {
    if n == 0 {
    } else {
      var keys := seq(n, _ => (false, false));
      assert keys[..n - 1] == seq(n - 1, _ => (false, false));
      var w := VelocityAfter(v, keys[..n - 1]);
      if (n - 1) as real * Deceleration >= Abs(v) {
        CoastingComesToRest(v, n - 1);
      } else {
        CoastingShrinks(v, n - 1);
        assert Abs(w) <= Deceleration;
      }
    }
  }

  /** After n frames with no key held, |velocity| has dropped by n steps (or reached 0). */
  lemma {:induction false} CoastingShrinks(v: real, n: nat)
    ensures Abs(VelocityAfter(v, seq(n, _ => (false, false)))) == Max(0.0, Abs(v) - n as real * Deceleration)
  {
    if n > 0 {
      var keys := seq(n, _ => (false, false));
      assert keys[..n - 1] == seq(n - 1, _ => (false, false));
      CoastingShrinks(v, n - 1);
    }
  }

  // ----------------------------------------------------------------- heading

  /**
   * One frame of the heading accumulator: the angle moves only while the
   * craft moves, left and right cancelling when both are held.
   */
  function NextHeading(angle: real, velocity: real, left: bool, right: bool): (r: real)
    ensures velocity == 0.0 ==> r == angle
    ensures left == right ==> r == angle
    ensures velocity != 0.0 && left && !right ==> r == angle - AngleToRotate
    ensures velocity != 0.0 && right && !left ==> r == angle + AngleToRotate
  {
    if velocity == 0.0 then angle
    else
      var turned := if left then angle - AngleToRotate else angle;
      if right then turned + AngleToRotate else turned
  }

  // --------------------------------------------------------------- obstacles

  /**
   * An obstacle in polar form about the track centre. The source keeps the
   * Cartesian position and recovers the polar angle with atan2 every frame;
   * since the distance stays at least BandLow > 0 the angle it recovers
   * names the same direction as the one it wrote (equal modulo 2π, as atan2
   * answers in (-π, π]), so the angle is carried here unchanged. The z
   * coordinate is the constant 2 and is not represented.
   */
  datatype Obstacle = Obstacle(radius: real, angle: real, speed: real, direction: int)

  predicate InBand(r: real) { BandLow <= r <= BandHigh }

  /** What generate_obs_positions can produce (up to its random draws). */
  predicate Generated(o: Obstacle)
  {
    InnerRadius <= o.radius <= OuterRadius && 0.1 <= o.speed < 0.15
    && (o.direction == 1 || o.direction == -1)
  }

  /** The invariant every obstacle keeps from frame to frame. */
  predicate WellFormed(o: Obstacle)
  {
    InBand(o.radius) && (o.direction == 1 || o.direction == -1)
  }

  /** The distance the source proposes before clamping. */
  function Proposed(o: Obstacle): real
  {
    o.radius + o.direction as real * o.speed
  }

  /** One frame of radial oscillation with clamping at the band edges. */
  function StepObstacle(o: Obstacle): (r: Obstacle)
    ensures InBand(r.radius) && r.radius > 0.0
    ensures r.angle == o.angle && r.speed == o.speed
    ensures Proposed(o) > BandHigh ==> r.radius == BandHigh - ClampBuffer && r.direction == -1
    ensures Proposed(o) < BandLow ==> r.radius == BandLow + ClampBuffer && r.direction == 1
    ensures InBand(Proposed(o)) ==> r.radius == Proposed(o) && r.direction == o.direction
  {
    var proposed := Proposed(o);
    if proposed > BandHigh then o.(radius := BandHigh - ClampBuffer, direction := -1)
    else if proposed < BandLow then o.(radius := BandLow + ClampBuffer, direction := 1)
    else o.(radius := proposed)
  }

  lemma StepKeepsWellFormed(o: Obstacle)
    requires o.direction == 1 || o.direction == -1
    ensures WellFormed(StepObstacle(o))
  {
  }

  lemma GeneratedIsWellFormed(o: Obstacle)
    requires Generated(o)
    ensures WellFormed(o)
  {
  }

  /** The obstacle after n frames. */
  function StepObstacleN(o: Obstacle, n: nat): Obstacle
  {
    if n == 0 then o else StepObstacle(StepObstacleN(o, n - 1))
  }

  /**
   * However many frames pass, a well-formed obstacle stays well-formed and
   * keeps its angle and speed.
   */
  lemma {:induction false} StepObstacleNInvariant(o: Obstacle, n: nat)
    requires WellFormed(o)
    ensures WellFormed(StepObstacleN(o, n))
    ensures StepObstacleN(o, n).angle == o.angle && StepObstacleN(o, n).speed == o.speed
  {
    if n > 0 {
      StepObstacleNInvariant(o, n - 1);
    }
  }

  /**
   * An obstacle that hits the outer edge turns inward: on the next frame it
   * moves in by exactly its speed (for any speed the generator can draw).
   */
  lemma BouncesOffOuterEdge(o: Obstacle)
    requires 0.0 < o.speed < BandHigh - BandLow - ClampBuffer
    requires Proposed(o) > BandHigh
    ensures StepObstacle(StepObstacle(o)).radius == BandHigh - ClampBuffer - o.speed
    ensures StepObstacle(StepObstacle(o)).direction == -1
  {
  }

  /** The mirror image at the inner edge. */
  lemma BouncesOffInnerEdge(o: Obstacle)
    requires 0.0 < o.speed < BandHigh - BandLow - ClampBuffer
    requires Proposed(o) < BandLow
    ensures StepObstacle(StepObstacle(o)).radius == BandLow + ClampBuffer + o.speed
    ensures StepObstacle(StepObstacle(o)).direction == 1
  {
  }

  // ------------------------------------------------------------------- clock

  /** The countdown: remaining seconds and the time of the last decrement. */
  datatype Clock = Clock(seconds: int, lastTime: real)

  /**
   * One frame of the countdown at animation time t (seconds). The first
   * frame (lastTime == 0) only records t; afterwards one second is taken
   * off once a whole second has passed since the last decrement.
   */
  function Tick(c: Clock, t: real): (r: Clock)
    ensures c.lastTime == 0.0 ==> r == Clock(c.seconds, t)
    ensures c.lastTime != 0.0 ==> (r.seconds == c.seconds - 1 <==> t - c.lastTime >= 1.0)
    ensures c.lastTime != 0.0 ==> (r.seconds == c.seconds <==> t - c.lastTime < 1.0)
    ensures r.seconds == c.seconds - 1 ==> r.lastTime == t
    ensures r.seconds == c.seconds && c.lastTime != 0.0 ==> r.lastTime == c.lastTime
  {
    var last := if c.lastTime == 0.0 then t else c.lastTime;
    if t - last >= 1.0 then Clock(c.seconds - 1, t) else Clock(c.seconds, last)
  }

  /** The clock after frames at the animation times ts. */
  function TickAll(c: Clock, ts: seq<real>): Clock
  {
    if ts == [] then c else Tick(TickAll(c, ts[..|ts| - 1]), ts[|ts| - 1])
  }

  predicate NonDecreasing(ts: seq<real>)
  {
    forall i, j :: 0 <= i <= j < |ts| ==> ts[i] <= ts[j]
  }

  /**
   * The countdown never runs faster than animation time: once started at
   * lastTime = L (not 0), over frames with non-decreasing times from L on,
   * the seconds lost are at most the whole seconds elapsed up to the
   * latest frame (so a long frame gap loses only one second).
   */
  lemma {:induction false} ClockNeverRunsFast(c: Clock, ts: seq<real>)
    requires c.lastTime > 0.0
    requires NonDecreasing(ts)
    requires forall i :: 0 <= i < |ts| ==> c.lastTime <= ts[i]
    ensures TickAll(c, ts).seconds <= c.seconds
    ensures TickAll(c, ts).lastTime >= c.lastTime
    ensures (c.seconds - TickAll(c, ts).seconds) as real <= TickAll(c, ts).lastTime - c.lastTime
    ensures ts != [] ==> TickAll(c, ts).lastTime <= ts[|ts| - 1]
  {
    if ts != [] {
      var prefix := ts[..|ts| - 1];
      assert NonDecreasing(prefix);
      ClockNeverRunsFast(c, prefix);
      assert prefix != [] ==> prefix[|prefix| - 1] <= ts[|ts| - 1];
    }
  }

  // ---------------------------------------------------------------- pickups

  datatype Vec3 = Vec3(x: real, y: real, z: real)

  function SquaredDistance(p: Vec3, q: Vec3): (d: real)
    ensures d >= 0.0
    ensures p == q ==> d == 0.0
  {
    (p.x - q.x) * (p.x - q.x) + (p.y - q.y) * (p.y - q.y) + (p.z - q.z) * (p.z - q.z)
  }

  /**
   * The collision test of check_collisions, sqrt(d) < 3, written without
   * the square root as d < 9 (see SqrtComparison).
   */
  predicate WithinReach(p: Vec3, q: Vec3)
  {
    SquaredDistance(p, q) < CollisionThreshold * CollisionThreshold
  }

  /** For the non-negative root s of d, s < 3 exactly when d < 9. */
  lemma SqrtComparison(d: real, s: real)
    requires s >= 0.0 && s * s == d
    ensures s < CollisionThreshold <==> d < CollisionThreshold * CollisionThreshold
  {
    if s >= CollisionThreshold {
      assert s * s >= CollisionThreshold * s >= CollisionThreshold * CollisionThreshold;
    } else {
      var gap := CollisionThreshold - s;
      assert gap > 0.0;
      assert gap * s >= 0.0;
      assert s * s == CollisionThreshold * CollisionThreshold - gap * CollisionThreshold - gap * s;
    }
  }

  /** The number of true entries: the count of active power-up slots. */
  function CountTrue(s: seq<bool>): (n: nat)
    ensures n <= |s|
    ensures n == |s| <==> forall i :: 0 <= i < |s| ==> s[i]
    ensures n == 0 <==> forall i :: 0 <= i < |s| ==> !s[i]
  {
    if s == [] then 0
    else CountTrue(s[..|s| - 1]) + (if s[|s| - 1] then 1 else 0)
  }

  /** Setting one entry changes the count by exactly that entry's change. */
  lemma {:induction false} CountTrueUpdate(s: seq<bool>, i: nat, b: bool)
    requires i < |s|
    ensures CountTrue(s[i := b]) == CountTrue(s) - (if s[i] then 1 else 0) + (if b then 1 else 0)
  {
    var n := |s| - 1;
    if i < n {
      assert s[i := b][..n] == s[..n][i := b];
      CountTrueUpdate(s[..n], i, b);
    } else {
      assert s[i := b][..n] == s[..n];
    }
  }

  /** Fewer than all slots active: some slot is free. */
  lemma FreeSlotExists(s: seq<bool>) returns (i: nat)
    requires CountTrue(s) < |s|
    ensures i < |s| && !s[i]
  {
    i :| 0 <= i < |s| && !s[i];
  }
}
