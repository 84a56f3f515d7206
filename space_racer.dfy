/**
 * The race session of SpaceRacer: the fields that display() and its helpers
 * update in place every frame. Drawing, the camera and the HUD canvas are not
 * part of this model; the UFO's position (read from its transform) and the
 * key states come in as parameters, and Math.random is an oracle of draws.
 */
module Racer {
  import opened RaceRules

  /** The polled key-state map: ArrowUp, ArrowDown, ArrowLeft, ArrowRight. */
  datatype Keys = Keys(up: bool, down: bool, left: bool, right: bool)

  /**
   * Draws of Math.floor(Math.random() * 12): each names one of the twelve
   * power-up slots.
   */
  predicate SlotDraws(draws: seq<int>)
  {
    forall k :: 0 <= k < |draws| ==> 0 <= draws[k] < TimerSlots as int
  }

  predicate Increasing(s: seq<int>)
  {
    forall a, b :: 0 <= a < b < |s| ==> s[a] < s[b]
  }

  class SpaceRacer {
    var velocity: real
    var angleOfRotation: real
    var timerPositions: seq<Vec3>
    var timerActive: array<bool>
    var activeCount: int
    var timerSeconds: int
    var lastTime: real
    var obstacles: seq<Obstacle>

    /** The power-up registry is consistent: the count is the number of true flags. */
    ghost predicate RegistryConsistent()
      reads this, timerActive
    {
      timerActive.Length == TimerSlots && activeCount == CountTrue(timerActive[..])
    }

    /** The session invariant kept between frames. */
    ghost predicate Valid()
      reads this, timerActive
    {
      && RegistryConsistent()
      && activeCount == TargetActive
      && |timerPositions| == TimerSlots
      && -MaxSpeed <= velocity <= MaxSpeed
      && (forall i :: 0 <= i < |obstacles| ==> WellFormed(obstacles[i]))
    }

    /**
     * The constructor's simulation state. The random slot positions of
     * generate_timer_positions and the random obstacles of
     * generate_obs_positions come in as parameters.
     */
    constructor (positions: seq<Vec3>, generated: seq<Obstacle>, draws: seq<int>)
      requires |positions| == TimerSlots
      requires |generated| == ObstacleCount
      requires forall i :: 0 <= i < |generated| ==> Generated(generated[i])
      requires SlotDraws(draws)
      ensures Valid() && fresh(timerActive)
      ensures velocity == 0.0 && angleOfRotation == 0.0
      ensures timerPositions == positions && obstacles == generated
      ensures timerSeconds == InitialSeconds && lastTime == 0.0
    {
      velocity := 0.0;
      angleOfRotation := 0.0;
      timerPositions := positions;
      timerActive := new bool[TimerSlots](_ => false);
      activeCount := 0;
      timerSeconds := InitialSeconds;
      lastTime := 0.0;
      obstacles := generated;
      new;
      forall i | 0 <= i < |generated| ensures WellFormed(generated[i]) {
        GeneratedIsWellFormed(generated[i]);
      }
      var _ := SpawnTimerPowerUps(draws);
    }

    /**
     * spawn_timer_power_ups: draw slots until three are active, skipping a
     * draw that names an active slot. The draws are consumed from the
     * front; if they run out first, each further activation takes some
     * inactive slot (the draw that Math.random eventually produces).
     */
    method SpawnTimerPowerUps(draws: seq<int>) returns (used: nat)
      requires RegistryConsistent() && activeCount <= TargetActive
      requires SlotDraws(draws)
      modifies timerActive, this`activeCount
      ensures RegistryConsistent() && activeCount == TargetActive
      ensures used <= |draws|
      ensures forall i :: 0 <= i < TimerSlots && old(timerActive[i]) ==> timerActive[i]
      ensures forall k :: 0 <= k < used ==> timerActive[draws[k]]
      ensures forall i :: 0 <= i < TimerSlots && timerActive[i] && !old(timerActive[i]) && used < |draws|
                ==> i in draws[..used]
      ensures old(activeCount) == TargetActive ==> used == 0 && timerActive[..] == old(timerActive[..])
    {
      used := 0;
      while activeCount < TargetActive
        invariant RegistryConsistent() && activeCount <= TargetActive
        invariant used <= |draws|
        invariant forall i :: 0 <= i < TimerSlots && old(timerActive[i]) ==> timerActive[i]
        invariant forall k :: 0 <= k < used ==> timerActive[draws[k]]
        invariant forall i :: 0 <= i < TimerSlots && timerActive[i] && !old(timerActive[i]) && used < |draws|
                    ==> i in draws[..used]
        invariant old(activeCount) == TargetActive ==> used == 0 && timerActive[..] == old(timerActive[..])
        decreases TargetActive - activeCount, |draws| - used
      {
        var index: int;
        if used < |draws| {
          index := draws[used];
          used := used + 1;
        } else {
          var free := FreeSlotExists(timerActive[..]);
          index :| 0 <= index < TimerSlots && !timerActive[index];
        }
        if !timerActive[index] {
          CountTrueUpdate(timerActive[..], index, true);
          timerActive[index] := true;
          activeCount := activeCount + 1;
        }
      }
    }

    /**
     * check_collisions: visit the slots in index order; an active slot
     * within reach of the UFO is deactivated, the registry is refilled to
     * three and five seconds are added. The refill may re-activate the
     * slot just consumed, or a later slot that is then visited in the same
     * call. `consumed` lists the slots consumed, in visiting order.
     */
    method CheckCollisions(ufoPos: Vec3, draws: seq<int>) returns (used: nat, ghost consumed: seq<int>)
      requires Valid()
      requires SlotDraws(draws)
      modifies timerActive, this`activeCount, this`timerSeconds
      ensures Valid()
      ensures used <= |draws|
      ensures timerSeconds == old(timerSeconds) + TimerBonus * |consumed|
      ensures timerSeconds >= old(timerSeconds)
      ensures Increasing(consumed)
      ensures forall k :: 0 <= k < |consumed| ==>
                0 <= consumed[k] < TimerSlots && WithinReach(ufoPos, timerPositions[consumed[k]])
      ensures forall i :: 0 <= i < TimerSlots && old(timerActive[i]) && WithinReach(ufoPos, timerPositions[i])
                ==> i in consumed
      ensures forall i :: 0 <= i < TimerSlots && old(timerActive[i]) && !WithinReach(ufoPos, timerPositions[i])
                ==> timerActive[i]
    {
      used := 0;
      consumed := [];
      var i := 0;
      while i < |timerPositions|
        invariant 0 <= i <= TimerSlots
        invariant Valid()
        invariant used <= |draws|
        invariant timerSeconds == old(timerSeconds) + TimerBonus * |consumed|
        invariant Increasing(consumed)
        invariant forall k :: 0 <= k < |consumed| ==>
                    0 <= consumed[k] < i && WithinReach(ufoPos, timerPositions[consumed[k]])
        invariant forall j :: 0 <= j < i && old(timerActive[j]) && WithinReach(ufoPos, timerPositions[j])
                    ==> j in consumed
        invariant forall j :: i <= j < TimerSlots && old(timerActive[j]) ==> timerActive[j]
        invariant forall j :: 0 <= j < TimerSlots && old(timerActive[j]) && !WithinReach(ufoPos, timerPositions[j])
                    ==> timerActive[j]
      {
        if timerActive[i] && WithinReach(ufoPos, timerPositions[i]) {
          var n := Consume(i, draws[used..]);
          used := used + n;
          consumed := consumed + [i];
        }
        i := i + 1;
      }
    }

    /**
     * The body of check_collisions for an active slot within reach: the
     * slot is deactivated, the registry refilled and five seconds added.
     */
    method Consume(i: int, draws: seq<int>) returns (used: nat)
      requires Valid() && 0 <= i < TimerSlots && timerActive[i]
      requires SlotDraws(draws)
      modifies timerActive, this`activeCount, this`timerSeconds
      ensures Valid()
      ensures used <= |draws|
      ensures timerSeconds == old(timerSeconds) + TimerBonus
      ensures forall j :: 0 <= j < TimerSlots && j != i && old(timerActive[j]) ==> timerActive[j]
    {
      CountTrueUpdate(timerActive[..], i, false);
      timerActive[i] := false;
      activeCount := activeCount - 1;
      used := SpawnTimerPowerUps(draws);
      timerSeconds := timerSeconds + TimerBonus;
    }

    /**
     * The obstacle block of display(): every obstacle takes one radial
     * step, in place and in order.
     */
    method AdvanceObstacles()
      requires forall i :: 0 <= i < |obstacles| ==> WellFormed(obstacles[i])
      modifies this`obstacles
      ensures |obstacles| == |old(obstacles)|
      ensures forall i :: 0 <= i < |obstacles| ==> obstacles[i] == StepObstacle(old(obstacles)[i])
      ensures forall i :: 0 <= i < |obstacles| ==> WellFormed(obstacles[i])
    {
      var i := 0;
      while i < |obstacles|
        invariant 0 <= i <= |obstacles| == |old(obstacles)|
        invariant forall k :: 0 <= k < i ==> obstacles[k] == StepObstacle(old(obstacles)[k])
        invariant forall k :: i <= k < |obstacles| ==> obstacles[k] == old(obstacles)[k]
        invariant forall k :: 0 <= k < |obstacles| ==> WellFormed(obstacles[k])
      {
        StepKeepsWellFormed(obstacles[i]);
        obstacles := obstacles[i := StepObstacle(obstacles[i])];
        i := i + 1;
      }
    }

    /**
     * The simulation part of one display() frame at animation time t
     * (seconds): velocity, heading, obstacles, pickups, countdown, in the
     * source's order. ufoPos is the UFO's position after this frame's move.
     */
    method Display(keys: Keys, t: real, ufoPos: Vec3, draws: seq<int>) returns (used: nat, ghost consumed: seq<int>)
      requires Valid()
      requires SlotDraws(draws)
      modifies this`velocity, this`angleOfRotation, this`obstacles
      modifies timerActive, this`activeCount, this`timerSeconds, this`lastTime
      ensures Valid()
      ensures used <= |draws|
      ensures velocity == NextVelocity(old(velocity), keys.up, keys.down)
      ensures angleOfRotation == NextHeading(old(angleOfRotation), velocity, keys.left, keys.right)
      ensures |obstacles| == |old(obstacles)|
      ensures forall i :: 0 <= i < |obstacles| ==> obstacles[i] == StepObstacle(old(obstacles)[i])
      ensures Clock(timerSeconds, lastTime)
                == Tick(Clock(old(timerSeconds) + TimerBonus * |consumed|, old(lastTime)), t)
      ensures Increasing(consumed)
      ensures forall k :: 0 <= k < |consumed| ==>
                0 <= consumed[k] < TimerSlots && WithinReach(ufoPos, timerPositions[consumed[k]])
      ensures forall i :: 0 <= i < TimerSlots && old(timerActive[i]) && WithinReach(ufoPos, timerPositions[i])
                ==> i in consumed
      ensures forall i :: 0 <= i < TimerSlots && old(timerActive[i]) && !WithinReach(ufoPos, timerPositions[i])
                ==> timerActive[i]
    {
      ControlVelocity(keys);
      Steer(keys);
      AdvanceObstacles();
      used, consumed := CheckCollisions(ufoPos, draws);
      Countdown(t);
    }

    /** The velocity block of display(). */
    method ControlVelocity(keys: Keys)
      modifies this`velocity
      ensures velocity == NextVelocity(old(velocity), keys.up, keys.down)
    {
      if keys.up {
        velocity := Min(MaxSpeed, velocity + Acceleration);
      } else if keys.down {
        velocity := Max(-MaxSpeed, velocity - Acceleration);
      } else {
        if velocity > 0.0 {
          velocity := Max(0.0, velocity - Deceleration);
        } else if velocity < 0.0 {
          velocity := Min(0.0, velocity + Deceleration);
        }
      }
    }

    /** The heading part of the "move the car" block of display(). */
    method Steer(keys: Keys)
      modifies this`angleOfRotation
      ensures angleOfRotation == NextHeading(old(angleOfRotation), velocity, keys.left, keys.right)
    {
      if velocity != 0.0 {
        if keys.left {
          angleOfRotation := angleOfRotation - AngleToRotate;
        }
        if keys.right {
          angleOfRotation := angleOfRotation + AngleToRotate;
        }
      }
    }

    /** The timer block of display() at animation time t. */
    method Countdown(t: real)
      modifies this`timerSeconds, this`lastTime
      ensures Clock(timerSeconds, lastTime) == Tick(Clock(old(timerSeconds), old(lastTime)), t)
    {
      if lastTime == 0.0 {
        lastTime := t;
      }
      if t - lastTime >= 1.0 {
        timerSeconds := timerSeconds - 1;
        lastTime := t;
      }
    }
  }
}
