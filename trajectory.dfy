/**
 * The reference trajectory: a single-stage rocket flying straight up,
 * integrated with a fixed-step semi-implicit Euler recurrence.
 *
 * Reals stand for the program's floating-point numbers; rounding is not
 * modelled. The number of samples `n` is a parameter (the program derives
 * it from the simulated duration and the step).
 */
module Trajectory {

  /** The rocket's physical parameters and the integration step. */
  datatype Config = Config(
    m0: real,        // initial mass (kg)
    mFuel: real,     // fuel mass (kg)
    thrust: real,    // thrust while burning (N)
    burnTime: real,  // burn duration (s)
    vE: real,        // exhaust velocity (m/s), carried but not used by the stepper
    g: real,         // gravitational acceleration (m/s^2)
    k: real,         // drag coefficient (kg/m)
    dt: real)        // integration step (s)
  {
    /** Mass once all the fuel is burnt. */
    function MDry(): real { m0 - mFuel }

    /** What the stepper needs to never divide by zero: a positive step and
        a mass that stays positive while fuel burns. */
    predicate Valid() { dt > 0.0 && mFuel >= 0.0 && MDry() > 0.0 }
  }

  /** The parameters the program is shipped with. */
  const Rocket: Config := Config(0.5, 0.1, 100.0, 2.0, 300.0, 9.81, 0.01, 0.1)

  /** One simulated sample; its time is `SampleTime(cfg, i)`. */
  datatype Sample = Sample(altitude: real, velocity: real)

  const Grounded: Sample := Sample(0.0, 0.0)

  function SampleTime(cfg: Config, i: nat): real { i as real * cfg.dt }

  lemma SampleTimePositive(cfg: Config, i: nat)
    requires cfg.Valid() && i >= 1
    ensures SampleTime(cfg, i) >= cfg.dt > 0.0
  {
  }

  /** The fuel burnt after `t` seconds never exceeds the fuel on board. */
  lemma FuelBurntBound(cfg: Config, t: real)
    requires cfg.Valid() && 0.0 < t <= cfg.burnTime
    ensures 0.0 <= (cfg.mFuel / cfg.burnTime) * t <= cfg.mFuel
  {
  }

  /** Instantaneous mass: linear from `m0` towards the dry mass while
      burning, the dry mass afterwards. It stays between the two. */
  function MassAt(cfg: Config, t: real): (m: real)
    requires cfg.Valid() && t > 0.0
    ensures cfg.MDry() <= m <= cfg.m0
    ensures m > 0.0
  {
    if t <= cfg.burnTime then
      FuelBurntBound(cfg, t);
      cfg.m0 - (cfg.mFuel / cfg.burnTime) * t
    else
      cfg.MDry()
  }

  /** Instantaneous thrust: full thrust while burning, none afterwards. */
  function ThrustAt(cfg: Config, t: real): (f: real)
    ensures f == cfg.thrust || f == 0.0
    ensures t <= cfg.burnTime ==> f == cfg.thrust
    ensures t > cfg.burnTime ==> f == 0.0
  {
    if t <= cfg.burnTime then cfg.thrust else 0.0
  }

  /** One Euler step at time `t` from the previous sample, before the
      ground clamp: the velocity is updated first and the altitude uses the
      updated velocity. Drag is `k * v * v` whatever the sign of `v`. */
  function Unclamped(cfg: Config, t: real, prev: Sample): (s: Sample)
    requires cfg.Valid() && t > 0.0
    ensures s.altitude == prev.altitude + s.velocity * cfg.dt
  {
    var m := MassAt(cfg, t);
    var drag := cfg.k * prev.velocity * prev.velocity;
    var a := (ThrustAt(cfg, t) - drag - m * cfg.g) / m;
    var v := prev.velocity + a * cfg.dt;
    Sample(prev.altitude + v * cfg.dt, v)
  }

  /** The velocity change of an unclamped step is Newton's second law over
      one step: mass times the change is the net force (thrust, minus drag,
      minus weight) times the step. */
  lemma UnclampedNewton(cfg: Config, t: real, prev: Sample)
    requires cfg.Valid() && t > 0.0
    ensures var s, m := Unclamped(cfg, t, prev), MassAt(cfg, t);
      (s.velocity - prev.velocity) * m ==
        (ThrustAt(cfg, t) - cfg.k * prev.velocity * prev.velocity - m * cfg.g) * cfg.dt
  {
  }

  /** One step with the ground clamp applied. */
  function Step(cfg: Config, t: real, prev: Sample): (s: Sample)
    requires cfg.Valid() && t > 0.0
    ensures s.altitude >= 0.0
    ensures s == Unclamped(cfg, t, prev) || s == Grounded
  {
    var u := Unclamped(cfg, t, prev);
    if u.altitude < 0.0 then Grounded else u
  }

  /** The i-th sample of the reference trajectory; sample 0 is on the pad
      at rest. */
  function SampleAt(cfg: Config, i: nat): (s: Sample)
    requires cfg.Valid()
    ensures s.altitude >= 0.0
    ensures i == 0 ==> s == Grounded
  {
    if i == 0 then Grounded
    else
      SampleTimePositive(cfg, i);
      Step(cfg, SampleTime(cfg, i), SampleAt(cfg, i - 1))
  }

  /** The ground clamp fires at step i when the unclamped update would put
      the rocket below ground. */
  ghost predicate ClampFires(cfg: Config, i: nat)
    requires cfg.Valid()
  {
    i >= 1 && SampleTime(cfg, i) > 0.0 &&
    Unclamped(cfg, SampleTime(cfg, i), SampleAt(cfg, i - 1)).altitude < 0.0
  }

  /** The mass never rises: fuel only burns. */
  lemma MassNonIncreasing(cfg: Config, t1: real, t2: real)
    requires cfg.Valid() && 0.0 < t1 <= t2
    ensures MassAt(cfg, t2) <= MassAt(cfg, t1)
  {
  }

  /** The interpolated mass meets the dry mass exactly at burnout. */
  lemma MassAtBurnout(cfg: Config)
    requires cfg.Valid() && cfg.burnTime > 0.0
    ensures MassAt(cfg, cfg.burnTime) == cfg.MDry()
    ensures ThrustAt(cfg, cfg.burnTime) == cfg.thrust
  {
  }

  /** Whenever the ground clamp fires, altitude and velocity are both zero;
      otherwise the sample is the plain Euler update. */
  lemma ClampZeroesVelocity(cfg: Config, i: nat)
    requires cfg.Valid() && i >= 1
    ensures SampleTime(cfg, i) > 0.0
    ensures ClampFires(cfg, i) ==> SampleAt(cfg, i) == Grounded
    ensures !ClampFires(cfg, i) ==>
      SampleAt(cfg, i) == Unclamped(cfg, SampleTime(cfg, i), SampleAt(cfg, i - 1))
  {
  }

  /** After burnout, a rocket at rest on the ground stays there: with no
      thrust and no velocity the step accelerates it straight into the
      ground and the clamp puts it back at rest. */
  lemma GroundedAfterBurnoutStep(cfg: Config, t: real)
    requires cfg.Valid() && cfg.g > 0.0 && t > 0.0 && t > cfg.burnTime
    ensures Step(cfg, t, Grounded) == Grounded
  {
  }

  /** Consecutive samples are one step apart. */
  lemma SampleTimeSucc(cfg: Config, i: nat)
    ensures SampleTime(cfg, i + 1) == SampleTime(cfg, i) + cfg.dt
  {
    assert (i + 1) as real == i as real + 1.0;
  }

  /** Once grounded after burnout, the trajectory stays grounded for every
      later sample: the ground is an absorbing state. */
  lemma {:induction false} GroundedAfterBurnout(cfg: Config, i: nat, j: nat)
    requires cfg.Valid() && cfg.g > 0.0
    requires SampleTime(cfg, i) > cfg.burnTime && SampleAt(cfg, i) == Grounded
    requires i <= j
    ensures SampleAt(cfg, j) == Grounded
    decreases j - i
  {
    if i < j {
      var i' := i + 1;
      var t' := SampleTime(cfg, i');
      SampleTimePositive(cfg, i');
      SampleTimeSucc(cfg, i);
      GroundedAfterBurnoutStep(cfg, t');
      assert SampleAt(cfg, i') == Step(cfg, t', SampleAt(cfg, i));
      GroundedAfterBurnout(cfg, i', j);
    }
  }

  /** The shipped parameters satisfy the stepper's requirements. */
  lemma RocketValid()
    ensures Rocket.Valid() && Rocket.g > 0.0 && Rocket.burnTime > 0.0
    ensures Rocket.MDry() == 0.4
  {
  }

  /** The body of the stepping loop on plain values: the new velocity
      first, then the altitude from the new velocity, both forced to zero
      when the altitude went negative. */
  method EulerStep(cfg: Config, tNow: real, hPrev: real, vPrev: real) returns (h: real, v: real)
    requires cfg.Valid() && tNow > 0.0
    ensures Sample(h, v) == Step(cfg, tNow, Sample(hPrev, vPrev))
    ensures h >= 0.0
    ensures Unclamped(cfg, tNow, Sample(hPrev, vPrev)).altitude < 0.0 ==> h == 0.0 && v == 0.0
  {
    var m := MassAt(cfg, tNow);
    var thrustForce := ThrustAt(cfg, tNow);
    var drag := cfg.k * vPrev * vPrev;
    var a := (thrustForce - drag - m * cfg.g) / m;
    v := vPrev + a * cfg.dt;
    h := hPrev + v * cfg.dt;
    assert Sample(h, v) == Unclamped(cfg, tNow, Sample(hPrev, vPrev));
    if h < 0.0 {
      h, v := 0.0, 0.0;
    }
  }

  /**
   * Fills the three sample arrays (time, altitude, velocity): sample 0 at
   * rest on the ground, then one Euler step per index from the previous
   * sample.
   */
  method Simulate(cfg: Config, n: nat) returns (times: array<real>, altitude: array<real>, velocity: array<real>)
    requires cfg.Valid()
    ensures fresh(times) && fresh(altitude) && fresh(velocity)
    ensures times.Length == altitude.Length == velocity.Length == n
    ensures forall i :: 0 <= i < n ==> times[i] == SampleTime(cfg, i)
    ensures forall i :: 0 <= i < n ==> Sample(altitude[i], velocity[i]) == SampleAt(cfg, i)
    ensures n > 0 ==> altitude[0] == 0.0 && velocity[0] == 0.0
    ensures forall i :: 0 <= i < n ==> altitude[i] >= 0.0
  {
    times := new real[n](i => SampleTime(cfg, i));
    altitude := new real[n](_ => 0.0);
    velocity := new real[n](_ => 0.0);
    assert n > 0 ==> Sample(altitude[0], velocity[0]) == SampleAt(cfg, 0);
    var i := 1;
    while i < n
      invariant 1 <= i && (n == 0 || i <= n)
      invariant times != altitude && times != velocity && altitude != velocity
      invariant forall j :: 0 <= j < n ==> times[j] == SampleTime(cfg, j)
      invariant forall j {:trigger altitude[j]} :: 0 <= j < i && j < n ==> Sample(altitude[j], velocity[j]) == SampleAt(cfg, j)
    {
      var tNow := times[i];
      SampleTimePositive(cfg, i);
      assert Sample(altitude[i - 1], velocity[i - 1]) == SampleAt(cfg, i - 1);
      var h, v := EulerStep(cfg, tNow, altitude[i - 1], velocity[i - 1]);
      assert Sample(h, v) == SampleAt(cfg, i);
      velocity[i] := v;
      altitude[i] := h;
      i := i + 1;
    }
  }
}
