/**
 * The arithmetic of `Rocket.dynamics` and `Rocket.integrate` as pure
 * functions on the rocket's kinematic state, and of repeated `step`s as
 * a recursive run. The class in module Flight is proved against these.
 */
module Physics {

  /** The gravitational acceleration of line 85. */
  const Gravity: real := 9.81

  /** np.pi as a double. */
  const Pi: real := 3.141592653589793

  /** Degrees to radians, as `theta * (np.pi / 180)` and `np.radians` compute it. */
  function Radians(deg: real): real {
    deg * (Pi / 180.0)
  }

  /**
   * The sine and cosine the rocket is simulated with (np.sin, np.cos).
   * The model relies only on sin(0) == 0.
   */
  datatype Trig = Trig(sin: real -> real, cos: real -> real)

  /** The parameters the rocket never reassigns after construction. */
  datatype Body = Body(dt: real, mass: real, momentArm: real, momentInertia: real, trig: Trig)

  /** The divisions of `dynamics` are defined. */
  predicate Nonsingular(b: Body) {
    b.mass != 0.0 && b.momentInertia != 0.0
  }

  /** The fields `dynamics` and `integrate` read and write. */
  datatype State = State(
    x: real, y: real, theta: real,
    xVel: real, yVel: real, thetaVel: real,
    xAccel: real, yAccel: real, thetaAccel: real,
    gimbalTheta: real)

  /** One entry of the history logs x_arr, y_arr, theta_arr. */
  datatype Pose = Pose(x: real, y: real, theta: real)

  function PoseOf(s: State): Pose {
    Pose(s.x, s.y, s.theta)
  }

  /**
   * Lines 77-89: thrust along the body axis, tilted theta degrees from
   * vertical, minus the weight; the gimbal deflection gives the torque.
   * Only the three accelerations change, and each obeys Newton's second law.
   */
  function Dynamics(s: State, thrust: real, b: Body): (r: State)
    requires Nonsingular(b)
    ensures r.x == s.x && r.y == s.y && r.theta == s.theta && r.gimbalTheta == s.gimbalTheta
    ensures r.xVel == s.xVel && r.yVel == s.yVel && r.thetaVel == s.thetaVel
    ensures r.xAccel * b.mass == thrust * b.trig.sin(Radians(s.theta))
    ensures r.yAccel * b.mass == thrust * b.trig.cos(Radians(s.theta)) - Gravity * b.mass
    ensures r.thetaAccel * b.momentInertia == thrust * b.trig.sin(Radians(s.gimbalTheta)) * b.momentArm
    ensures thrust == 0.0 ==> r.xAccel == 0.0 && r.yAccel == -Gravity && r.thetaAccel == 0.0
    ensures s.gimbalTheta == 0.0 && b.trig.sin(0.0) == 0.0 ==> r.thetaAccel == 0.0
  {
    var angleRad := Radians(s.theta);
    var xThrust := thrust * b.trig.sin(angleRad);
    var yThrust := thrust * b.trig.cos(angleRad);
    var gimbalRad := Radians(s.gimbalTheta);
    var torque := thrust * b.trig.sin(gimbalRad) * b.momentArm;
    var yNet := yThrust - Gravity * b.mass;
    s.(xAccel := xThrust / b.mass, yAccel := yNet / b.mass, thetaAccel := torque / b.momentInertia)
  }

  /**
   * Lines 91-102, semi-implicit Euler with the ground clamp: every
   * velocity takes its acceleration; y then moves by the NEW y velocity;
   * if that leaves y at or below 0, y is clamped to 0 and x and theta stay
   * put, otherwise they move by their NEW velocities. Velocities are never
   * rolled back, and y is never negative afterwards.
   */
  function Integrate(s: State, dt: real): (r: State)
    ensures r.y >= 0.0
    ensures r.xVel == s.xVel + s.xAccel * dt
    ensures r.yVel == s.yVel + s.yAccel * dt
    ensures r.thetaVel == s.thetaVel + s.thetaAccel * dt
    ensures r.xAccel == s.xAccel && r.yAccel == s.yAccel && r.thetaAccel == s.thetaAccel
    ensures r.gimbalTheta == s.gimbalTheta
    ensures s.y + r.yVel * dt <= 0.0 ==> r.y == 0.0 && r.x == s.x && r.theta == s.theta
    ensures s.y + r.yVel * dt > 0.0 ==>
              r.y == s.y + r.yVel * dt && r.x == s.x + r.xVel * dt && r.theta == s.theta + r.thetaVel * dt
  {
    var v := s.(xVel := s.xVel + s.xAccel * dt,
                yVel := s.yVel + s.yAccel * dt,
                thetaVel := s.thetaVel + s.thetaAccel * dt);
    var y := v.y + v.yVel * dt;
    if y <= 0.0 then v.(y := 0.0)
    else v.(y := y, x := v.x + v.xVel * dt, theta := v.theta + v.thetaVel * dt)
  }

  /**
   * Airborne, the position moves by the old velocity plus a*dt^2: the
   * acceleration of this very step already acts on the position, which
   * an explicit Euler step (old velocity only) would not do.
   */
  lemma SemiImplicitAirborne(s: State, dt: real)
    requires Integrate(s, dt).y > 0.0
    ensures Integrate(s, dt).x == s.x + s.xVel * dt + s.xAccel * dt * dt
    ensures Integrate(s, dt).y == s.y + s.yVel * dt + s.yAccel * dt * dt
    ensures Integrate(s, dt).theta == s.theta + s.thetaVel * dt + s.thetaAccel * dt * dt
  {
    var r := Integrate(s, dt);
    assert s.y + r.yVel * dt > 0.0;
    assert (s.xVel + s.xAccel * dt) * dt == s.xVel * dt + s.xAccel * dt * dt;
    assert (s.yVel + s.yAccel * dt) * dt == s.yVel * dt + s.yAccel * dt * dt;
    assert (s.thetaVel + s.thetaAccel * dt) * dt == s.thetaVel * dt + s.thetaAccel * dt * dt;
  }

  /** Lines 72-74: `dynamics(thrust)` followed by `integrate()`. */
  function Step(s: State, thrust: real, b: Body): (r: State)
    requires Nonsingular(b)
    ensures r.y >= 0.0
    ensures r.gimbalTheta == s.gimbalTheta
  {
    Integrate(Dynamics(s, thrust, b), b.dt)
  }

  /** The state after one step per entry of `thrusts`, taken in order. */
  function Run(s: State, thrusts: seq<real>, b: Body): (r: State)
    requires Nonsingular(b)
    ensures r.gimbalTheta == s.gimbalTheta
    ensures s.y >= 0.0 || thrusts != [] ==> r.y >= 0.0
    decreases |thrusts|
  {
    if thrusts == [] then s
    else Step(Run(s, thrusts[..|thrusts| - 1], b), thrusts[|thrusts| - 1], b)
  }

  /**
   * The poses step records, one per entry of `thrusts`: entry i is the
   * pose before step i, i.e. after the first i steps.
   */
  function Snapshots(s: State, thrusts: seq<real>, b: Body): (ps: seq<Pose>)
    requires Nonsingular(b)
    ensures |ps| == |thrusts|
    ensures forall i :: 0 <= i < |thrusts| ==> ps[i] == PoseOf(Run(s, thrusts[..i], b))
    decreases |thrusts|
  {
    if thrusts == [] then []
    else
      var init := thrusts[..|thrusts| - 1];
      var ps := Snapshots(s, init, b) + [PoseOf(Run(s, init, b))];
      assert forall i :: 0 <= i < |init| ==> init[..i] == thrusts[..i];
      ps
  }

  function Xs(ps: seq<Pose>): (r: seq<real>)
    ensures |r| == |ps| && forall i :: 0 <= i < |ps| ==> r[i] == ps[i].x
  {
    seq(|ps|, i requires 0 <= i < |ps| => ps[i].x)
  }

  function Ys(ps: seq<Pose>): (r: seq<real>)
    ensures |r| == |ps| && forall i :: 0 <= i < |ps| ==> r[i] == ps[i].y
  {
    seq(|ps|, i requires 0 <= i < |ps| => ps[i].y)
  }

  function Thetas(ps: seq<Pose>): (r: seq<real>)
    ensures |r| == |ps| && forall i :: 0 <= i < |ps| ==> r[i] == ps[i].theta
  {
    seq(|ps|, i requires 0 <= i < |ps| => ps[i].theta)
  }

  /**
   * Taking the thrust at index k after the first k extends the run by one
   * step and each history column by the pose that step starts from.
   */
  lemma RunExtend(s: State, thrusts: seq<real>, k: nat, b: Body)
    requires Nonsingular(b) && k < |thrusts|
    ensures Run(s, thrusts[..k + 1], b) == Step(Run(s, thrusts[..k], b), thrusts[k], b)
    ensures var before := Run(s, thrusts[..k], b);
            var ps := Snapshots(s, thrusts[..k], b);
            var ps' := Snapshots(s, thrusts[..k + 1], b);
            Xs(ps') == Xs(ps) + [before.x] && Ys(ps') == Ys(ps) + [before.y] &&
            Thetas(ps') == Thetas(ps) + [before.theta]
  {
    assert thrusts[..k + 1][..k] == thrusts[..k];
  }

  // ---------------------------------------------------------------------
  // What a run keeps
  // ---------------------------------------------------------------------

  /** Starting on or above the ground, no step and no recorded pose is ever below it. */
  lemma {:induction false} RunStaysAboveGround(s: State, thrusts: seq<real>, b: Body)
    requires Nonsingular(b) && s.y >= 0.0
    ensures Run(s, thrusts, b).y >= 0.0
    ensures forall i :: 0 <= i < |thrusts| ==> Snapshots(s, thrusts, b)[i].y >= 0.0
  {
    forall i | 0 <= i < |thrusts| ensures Snapshots(s, thrusts, b)[i].y >= 0.0 {
      if i > 0 {
        assert thrusts[..i] != [];
      }
    }
  }

  /** The attitude the rocket holds when the gimbal is straight and nothing spins it. */
  predicate Ungimballed(s: State, theta0: real) {
    s.gimbalTheta == 0.0 && s.thetaVel == 0.0 && s.theta == theta0
  }

  /** With the gimbal at 0, a step never turns the rocket: torque, theta_accel and theta_vel stay 0. */
  lemma StepHoldsAttitude(s: State, theta0: real, thrust: real, b: Body)
    requires Nonsingular(b) && b.trig.sin(0.0) == 0.0
    ensures Ungimballed(s, theta0) ==> Ungimballed(Step(s, thrust, b), theta0)
  {
    if Ungimballed(s, theta0) {
      var d := Dynamics(s, thrust, b);
      assert d.thetaAccel == 0.0;
    }
  }

  /** Over any run with the gimbal at 0, theta never leaves its initial angle. */
  lemma {:induction false} RunHoldsAttitude(s: State, thrusts: seq<real>, b: Body)
    requires Nonsingular(b) && b.trig.sin(0.0) == 0.0 && Ungimballed(s, s.theta)
    ensures Ungimballed(Run(s, thrusts, b), s.theta)
    ensures forall i :: 0 <= i < |thrusts| ==> Snapshots(s, thrusts, b)[i].theta == s.theta
    decreases |thrusts|
  {
    if thrusts != [] {
      var init := thrusts[..|thrusts| - 1];
      RunHoldsAttitude(s, init, b);
      StepHoldsAttitude(Run(s, init, b), s.theta, thrusts[|thrusts| - 1], b);
      forall i | 0 <= i < |thrusts| ensures Snapshots(s, thrusts, b)[i].theta == s.theta {
        assert thrusts[..i] == init[..i];
        RunHoldsAttitude(s, thrusts[..i], b);
      }
    }
  }

  predicate AllZero(thrusts: seq<real>) {
    forall i :: 0 <= i < |thrusts| ==> thrusts[i] == 0.0
  }

  /** Descending without thrust: a step never raises y, and y_vel only grows more negative. */
  lemma CoastingStepDescends(s: State, b: Body)
    requires Nonsingular(b) && b.dt >= 0.0 && s.y >= 0.0 && s.yVel <= 0.0
    ensures Step(s, 0.0, b).y <= s.y
    ensures Step(s, 0.0, b).yVel == s.yVel - Gravity * b.dt
  {
    var d := Dynamics(s, 0.0, b);
    var r := Integrate(d, b.dt);
    assert r.yVel <= 0.0;
    assert r.yVel * b.dt <= 0.0;
  }

  /**
   * Zero thrust from a descending state: y never rises, and y_vel loses
   * g*dt per step whether the rocket is airborne or already on the ground.
   */
  lemma {:induction false} CoastingRunDescends(s: State, thrusts: seq<real>, b: Body)
    requires Nonsingular(b) && b.dt >= 0.0 && s.yVel <= 0.0 && s.y >= 0.0 && AllZero(thrusts)
    ensures Run(s, thrusts, b).y <= s.y
    ensures Run(s, thrusts, b).yVel == s.yVel - |thrusts| as real * Gravity * b.dt
    decreases |thrusts|
  {
    if thrusts != [] {
      var init := thrusts[..|thrusts| - 1];
      CoastingRunDescends(s, init, b);
      var m := Run(s, init, b);
      assert m.yVel <= 0.0 by {
        assert |init| as real * Gravity * b.dt >= 0.0;
      }
      CoastingStepDescends(m, b);
    }
  }

  /**
   * Once on the ground with zero thrust and a non-positive y_vel, the
   * rocket stays there: y stays 0 and x and theta are frozen, while y_vel
   * keeps accumulating gravity and x_vel, theta_vel keep what they had.
   */
  lemma {:induction false} GroundedRunStaysFrozen(s: State, thrusts: seq<real>, b: Body)
    requires Nonsingular(b) && b.dt >= 0.0 && s.y == 0.0 && s.yVel <= 0.0 && AllZero(thrusts)
    ensures var r := Run(s, thrusts, b);
            r.y == 0.0 && r.x == s.x && r.theta == s.theta &&
            r.yVel == s.yVel - |thrusts| as real * Gravity * b.dt &&
            r.xVel == s.xVel && r.thetaVel == s.thetaVel
    decreases |thrusts|
  {
    CoastingRunDescends(s, thrusts, b);
    if thrusts != [] {
      var init := thrusts[..|thrusts| - 1];
      GroundedRunStaysFrozen(s, init, b);
      var m := Run(s, init, b);
      var d := Dynamics(m, 0.0, b);
      assert d.yVel + d.yAccel * b.dt <= 0.0 by {
        assert |init| as real * Gravity * b.dt >= 0.0;
      }
      assert (d.yVel + d.yAccel * b.dt) * b.dt <= 0.0;
    }
  }

  /**
   * The ground does not hold the rocket: from y == 0, a step whose new
   * y velocity is positive lifts it off and moves x again. Freezing on the
   * ground lasts only while the thrust cannot overcome the accumulated
   * downward velocity.
   */
  lemma LiftOff(s: State, thrust: real, b: Body)
    requires Nonsingular(b) && b.dt > 0.0 && s.y == 0.0
    requires Dynamics(s, thrust, b).yAccel * b.dt + s.yVel > 0.0
    ensures Step(s, thrust, b).y > 0.0
    ensures Step(s, thrust, b).x == s.x + Step(s, thrust, b).xVel * b.dt
  {
    var d := Dynamics(s, thrust, b);
    var v := d.yVel + d.yAccel * b.dt;
    assert v > 0.0;
    assert v * b.dt > 0.0;
  }
}
