/**
 * The `Rocket` class of rocket.py: a time-stepped state machine whose
 * methods update its fields in place. Each method is proved against the
 * pure functions of module Physics; the thrust table comes from module
 * ThrustCurve.
 */
module Flight {
  import opened Wrappers
  import ThrustCurve
  import Physics

  /** Python's int() on a float: truncation toward zero. */
  function Trunc(r: real): int {
    if r >= 0.0 then r.Floor else -((-r).Floor)
  }

  /** Trunc rounds toward zero: it is the integer next to r on the side of 0. */
  lemma TruncTowardZero(r: real)
    ensures r >= 0.0 ==> 0 <= Trunc(r) && Trunc(r) as real <= r < Trunc(r) as real + 1.0
    ensures r < 0.0 ==> Trunc(r) <= 0 && Trunc(r) as real - 1.0 < r <= Trunc(r) as real
  {
  }

  /** The clock after k repetitions of `time += dt` from zero. */
  function Elapsed(k: nat, dt: real): (e: real)
    ensures dt >= 0.0 ==> e >= 0.0
    ensures dt > 0.0 && k > 0 ==> e >= dt
  {
    if k == 0 then 0.0 else Elapsed(k - 1, dt) + dt
  }

  /** Repeated addition of dt is k*dt under exact arithmetic. */
  lemma {:induction false} ElapsedIsProduct(k: nat, dt: real)
    ensures Elapsed(k, dt) == k as real * dt
  {
    if k > 0 {
      ElapsedIsProduct(k - 1, dt);
    }
  }

  /** After k steps the lookup index int(time/dt) of line 70 is k. */
  lemma IndexOfTick(k: nat, dt: real)
    requires dt > 0.0
    ensures Trunc(Elapsed(k, dt) / dt) == k
  {
    ElapsedIsProduct(k, dt);
    CancelScale(k as real, dt);
    assert (k as real).Floor == k;
  }

  lemma CancelScale(a: real, d: real)
    requires d > 0.0
    ensures (a * d) / d == a
  {
  }

  /** The loop test `time < max_time` of line 106 holds exactly before the last grid point. */
  lemma ClockBelowHorizon(k: nat, maxTime: real, dt: real)
    requires dt > 0.0
    ensures Elapsed(k, dt) < maxTime <==> k < ThrustCurve.GridLength(maxTime, dt)
  {
    ElapsedIsProduct(k, dt);
    ThrustCurve.BelowHorizon(k, maxTime, dt);
  }

  /**
   * One more step of run_sim extends the trajectory: from the state and
   * logs after k steps, stepping with thrusts[k] and logging the current
   * pose gives the state and logs after k + 1 steps.
   */
  lemma TraceExtends(start: Physics.State, thrusts: seq<real>, k: nat, b: Physics.Body,
                     xs0: seq<real>, ys0: seq<real>, ts0: seq<real>,
                     xs: seq<real>, ys: seq<real>, ts: seq<real>, cur: Physics.State)
    requires Physics.Nonsingular(b) && k < |thrusts|
    requires cur == Physics.Run(start, thrusts[..k], b)
    requires xs == xs0 + Physics.Xs(Physics.Snapshots(start, thrusts[..k], b))
    requires ys == ys0 + Physics.Ys(Physics.Snapshots(start, thrusts[..k], b))
    requires ts == ts0 + Physics.Thetas(Physics.Snapshots(start, thrusts[..k], b))
    ensures Physics.Step(cur, thrusts[k], b) == Physics.Run(start, thrusts[..k + 1], b)
    ensures xs + [cur.x] == xs0 + Physics.Xs(Physics.Snapshots(start, thrusts[..k + 1], b))
    ensures ys + [cur.y] == ys0 + Physics.Ys(Physics.Snapshots(start, thrusts[..k + 1], b))
    ensures ts + [cur.theta] == ts0 + Physics.Thetas(Physics.Snapshots(start, thrusts[..k + 1], b))
  {
    Physics.RunExtend(start, thrusts, k, b);
    var ps := Physics.Snapshots(start, thrusts[..k], b);
    AppendOne(xs0, Physics.Xs(ps), cur.x);
    AppendOne(ys0, Physics.Ys(ps), cur.y);
    AppendOne(ts0, Physics.Thetas(ps), cur.theta);
  }

  lemma AppendOne(log: seq<real>, run: seq<real>, v: real)
    ensures (log + run) + [v] == log + (run + [v])
  {
  }

  class Rocket {
    var time: real
    const maxTime: real
    const dt: real
    const mass: real
    const momentInertia: real
    const momentArm: real
    const times: seq<real>
    const thrusts: seq<real>
    const sin: real -> real
    const cos: real -> real

    var x: real
    var y: real
    var theta: real
    var gimbalTheta: real

    var xVel: real
    var yVel: real
    var thetaVel: real

    var xAccel: real
    var yAccel: real
    var thetaAccel: real

    var xArr: seq<real>
    var yArr: seq<real>
    var thetaArr: seq<real>

    /** Steps taken since the clock was last reset: time == tick * dt. */
    ghost var tick: nat
    /** The angle the rocket was built with. */
    ghost const initialAngle: real

    ghost function Body(): (b: Physics.Body)
      ensures b.dt == dt
    {
      Physics.Body(dt, mass, momentArm, momentInertia, Physics.Trig(sin, cos))
    }

    ghost function Kin(): Physics.State
      reads this
    {
      Physics.State(x, y, theta, xVel, yVel, thetaVel, xAccel, yAccel, thetaAccel, gimbalTheta)
    }

    /** The parameters are admissible and the thrust table is the one built for them. */
    ghost predicate Configured() {
      dt > 0.0 && mass > 0.0 && momentInertia > 0.0 && sin(0.0) == 0.0 &&
      times == ThrustCurve.Arange(maxTime, dt) && |thrusts| == |times| == ThrustCurve.GridLength(maxTime, dt)
    }

    /**
     * The rocket is configured, the clock is a whole number of steps, the
     * three logs have one entry per step, and the rocket and every logged
     * altitude are on or above the ground.
     */
    ghost predicate Valid()
      reads this
    {
      Configured() &&
      time == Elapsed(tick, dt) &&
      y >= 0.0 &&
      |xArr| == |yArr| == |thetaArr| &&
      forall i :: 0 <= i < |yArr| ==> yArr[i] >= 0.0
    }

    /** The gimbal is straight, nothing spins the rocket, and it has only ever logged its initial angle. */
    ghost predicate HoldsAttitude()
      reads this
    {
      Physics.Ungimballed(Kin(), initialAngle) &&
      forall i :: 0 <= i < |thetaArr| ==> thetaArr[i] == initialAngle
    }

    /** Lines 9-43 once import_thrust_curve has returned `table`. */
    constructor (timeStep: real, maxTime: real, mass: real, momentArm: real, momentInertia: real,
                 initialAngle: real, table: ThrustCurve.Table, sin: real -> real, cos: real -> real)
      requires timeStep > 0.0 && mass > 0.0 && momentInertia > 0.0 && sin(0.0) == 0.0
      requires table.times == ThrustCurve.Arange(maxTime, timeStep) && |table.thrusts| == |table.times|
      ensures Valid() && HoldsAttitude()
      ensures this.maxTime == maxTime && dt == timeStep && this.mass == mass
      ensures this.momentArm == momentArm && this.momentInertia == momentInertia
      ensures times == table.times && thrusts == table.thrusts && this.sin == sin && this.cos == cos
      ensures time == 0.0 && tick == 0 && this.initialAngle == initialAngle
      ensures Kin() == Physics.State(0.0, 0.0, initialAngle, 0.0, 0.0, 0.0, 0.0, 0.0, 0.0, 0.0)
      ensures xArr == [] && yArr == [] && thetaArr == []
    {
      time := 0.0;
      this.maxTime := maxTime;
      dt := timeStep;
      this.mass := mass;
      this.momentInertia := momentInertia;
      this.momentArm := momentArm;
      times, thrusts := table.times, table.thrusts;
      this.sin, this.cos := sin, cos;
      this.initialAngle := initialAngle;
      tick := 0;

      x := 0.0;
      y := 0.0;
      theta := initialAngle;
      gimbalTheta := 0.0;

      xVel := 0.0;
      yVel := 0.0;
      thetaVel := 0.0;

      xAccel := 0.0;
      yAccel := 0.0;
      thetaAccel := 0.0;

      xArr := [];
      yArr := [];
      thetaArr := [];
    }

    /**
     * `Rocket(...)` with the CSV rows already converted: fails exactly
     * when np.interp raises, on an empty or unpaired curve.
     */
    static method Create(timeStep: real, maxTime: real, mass: real, momentArm: real, momentInertia: real,
                         initialAngle: real, rows: seq<ThrustCurve.Row>, sin: real -> real, cos: real -> real)
      returns (r: Result<Rocket, ThrustCurve.InterpError>)
      requires timeStep > 0.0 && mass > 0.0 && momentInertia > 0.0 && sin(0.0) == 0.0
      requires ThrustCurve.StrictlyIncreasing(ThrustCurve.TimeColumn(rows))
      ensures var built := ThrustCurve.BuildTable(maxTime, timeStep,
                             ThrustCurve.TimeColumn(rows), ThrustCurve.ThrustColumn(rows));
              (r.Failure? <==> built.Failure?) &&
              (r.Failure? ==> r.error == built.error) &&
              (r.Success? ==>
                 fresh(r.value) && r.value.Valid() && r.value.HoldsAttitude() &&
                 r.value.times == built.value.times && r.value.thrusts == built.value.thrusts &&
                 r.value.maxTime == maxTime && r.value.dt == timeStep && r.value.mass == mass &&
                 r.value.momentArm == momentArm && r.value.momentInertia == momentInertia &&
                 r.value.sin == sin && r.value.cos == cos &&
                 r.value.time == 0.0 && r.value.tick == 0 && r.value.initialAngle == initialAngle &&
                 r.value.Kin() == Physics.State(0.0, 0.0, initialAngle, 0.0, 0.0, 0.0, 0.0, 0.0, 0.0, 0.0) &&
                 r.value.xArr == [] && r.value.yArr == [] && r.value.thetaArr == [])
    {
      var table := ThrustCurve.ImportThrustCurve(rows, maxTime, timeStep);
      if table.Failure? {
        return Failure(table.error);
      }
      var rocket := new Rocket(timeStep, maxTime, mass, momentArm, momentInertia,
                               initialAngle, table.value, sin, cos);
      r := Success(rocket);
    }

    /** Lines 77-89: set the three accelerations for the current pose and `thrust`. */
    method Dynamics(thrust: real)
      requires Configured()
      modifies this`xAccel, this`yAccel, this`thetaAccel
      ensures Kin() == Physics.Dynamics(old(Kin()), thrust, Body())
    {
      var angleRad := theta * (Physics.Pi / 180.0);
      var xThrust := thrust * sin(angleRad);
      var yThrust := thrust * cos(angleRad);

      var gimbalRad := Physics.Radians(gimbalTheta);
      var torque := thrust * sin(gimbalRad) * momentArm;

      var yNet := yThrust - Physics.Gravity * mass;

      xAccel := xThrust / mass;
      yAccel := yNet / mass;
      thetaAccel := torque / momentInertia;
    }

    /** Lines 91-102: semi-implicit Euler with the ground clamp and its early return. */
    method Integrate()
      modifies this`xVel, this`yVel, this`thetaVel, this`x, this`y, this`theta
      ensures Kin() == Physics.Integrate(old(Kin()), dt)
    {
      xVel := xVel + xAccel * dt;
      yVel := yVel + yAccel * dt;
      thetaVel := thetaVel + thetaAccel * dt;

      y := y + yVel * dt;
      if y <= 0.0 {
        y := 0.0;
        return;
      }

      x := x + xVel * dt;
      theta := theta + thetaVel * dt;
    }

    /**
     * Lines 65-75: log the pre-step pose, look thrust up by int(time/dt),
     * run dynamics and integrate, advance the clock by dt. When the index
     * is past the table, thrusts[index] raises IndexError after the pose
     * has been logged; `ok` is false and nothing else has changed.
     */
    method Step() returns (ok: bool)
      requires Valid()
      modifies this
      ensures Valid()
      ensures xArr == old(xArr) + [old(x)]
      ensures yArr == old(yArr) + [old(y)]
      ensures thetaArr == old(thetaArr) + [old(theta)]
      ensures ok <==> old(tick) < |thrusts|
      ensures ok ==> Kin() == Physics.Step(old(Kin()), thrusts[old(tick)], Body())
      ensures ok ==> time == old(time) + dt && tick == old(tick) + 1
      ensures !ok ==> Kin() == old(Kin()) && time == old(time) && tick == old(tick)
      ensures old(HoldsAttitude()) ==> HoldsAttitude()
    {
      ghost var before := Kin();
      IndexOfTick(tick, dt);

      xArr := xArr + [x];
      yArr := yArr + [y];
      thetaArr := thetaArr + [theta];

      var index := Trunc(time / dt);
      assert index == tick;
      if index >= |thrusts| {
        ok := false;
        return;
      }
      ok := true;
      var thrust := thrusts[index];
      ghost var after := Physics.Step(before, thrust, Body());
      Physics.StepHoldsAttitude(before, initialAngle, thrust, Body());
      Dynamics(thrust);
      Integrate();
      assert Kin() == after;
      time := time + dt;
      tick := tick + 1;
    }

    /**
     * Lines 104-107: reset the clock and step while time < max_time. That
     * is exactly one step per grid point, each with the thrust at its own
     * index. Histories and kinematic state are NOT reset: the logs grow by
     * the poses of a run that continues from the state the call found.
     */
    method RunSim()
      requires Valid()
      modifies this
      ensures Valid()
      ensures tick == |thrusts| == ThrustCurve.GridLength(maxTime, dt)
      ensures time == Elapsed(|thrusts|, dt)
      ensures Kin() == Physics.Run(old(Kin()), thrusts, Body())
      ensures xArr == old(xArr) + Physics.Xs(Physics.Snapshots(old(Kin()), thrusts, Body()))
      ensures yArr == old(yArr) + Physics.Ys(Physics.Snapshots(old(Kin()), thrusts, Body()))
      ensures thetaArr == old(thetaArr) + Physics.Thetas(Physics.Snapshots(old(Kin()), thrusts, Body()))
      ensures old(HoldsAttitude()) ==> HoldsAttitude()
    {
      ghost var start := Kin();
      time := 0.0;
      tick := 0;
      while time < maxTime
        invariant Valid()
        invariant tick <= |thrusts|
        invariant Kin() == Physics.Run(start, thrusts[..tick], Body())
        invariant xArr == old(xArr) + Physics.Xs(Physics.Snapshots(start, thrusts[..tick], Body()))
        invariant yArr == old(yArr) + Physics.Ys(Physics.Snapshots(start, thrusts[..tick], Body()))
        invariant thetaArr == old(thetaArr) + Physics.Thetas(Physics.Snapshots(start, thrusts[..tick], Body()))
        invariant old(HoldsAttitude()) ==> HoldsAttitude()
        decreases |thrusts| - tick
      {
        ClockBelowHorizon(tick, maxTime, dt);
        TraceExtends(start, thrusts, tick, Body(), old(xArr), old(yArr), old(thetaArr),
                     xArr, yArr, thetaArr, Kin());
        var ok := Step();
      }
      ClockBelowHorizon(tick, maxTime, dt);
      assert tick == |thrusts|;
      assert thrusts[..tick] == thrusts;
    }
  }

  /**
   * A second run_sim on the same rocket appends a second, equally long
   * trajectory that starts where the first one ended.
   */
  method RunTwice(rocket: Rocket)
    requires rocket.Valid() && rocket.xArr == []
    modifies rocket
    ensures |rocket.xArr| == |rocket.yArr| == |rocket.thetaArr| == 2 * |rocket.thrusts|
  {
    rocket.RunSim();
    ghost var first := rocket.Kin();
    ghost var firstLog := rocket.yArr;
    rocket.RunSim();
    assert rocket.yArr[..|firstLog|] == firstLog;
    assert rocket.Kin() == Physics.Run(first, rocket.thrusts, rocket.Body());
  }
}
