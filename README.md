# Rocket: a verified model of a 2-D thrust-vector-control simulator

The `Rocket` class of `rocket.py` simulates a rocket flying in a vertical plane.

- **Thrust table.** On construction it reads a motor's thrust curve from a CSV file. It appends the time of every row whose first column parses, and the thrust of every row whose two columns both parse. It resamples them with `np.interp` onto the uniform grid `np.arange(0, max_time, dt)`, with zero before the first sample and after the last.
- **One step.** `step` logs the current pose `(x, y, theta)`. It looks up the thrust at index `int(time / dt)` and sets the three accelerations from thrust, weight and gimbal torque (`dynamics`). It then advances velocities and positions by one semi-implicit Euler step, clamping `y` at the ground (`integrate`), and adds `dt` to the clock.
- **A run.** `run_sim` resets the clock and steps while `time < max_time`.

The model has four modules.

- `Wrappers` (`wrappers.dfy`): `Option` and `Result`.
- `ThrustCurve` (`thrust_curve.dfy`):
  - the CSV row filter, as a loop over pre-converted rows;
  - the `np.arange` grid and its length;
  - `np.interp` with `left=0, right=0`;
  - the thrust table, or the `ValueError` that `np.interp` raises.
- `Physics` (`physics.dfy`):
  - `dynamics`, `integrate` and one `step`, as pure functions on the kinematic state;
  - a run of steps, as a recursive function;
  - the logged poses of a run;
  - lemmas about what a run preserves: the ground constraint, the attitude with the gimbal straight, coasting descent, freezing on the ground and lifting off again.
- `Flight` (`flight.dfy`): the `Rocket` class.
  - Its fields are the Python attributes. The parameters are `const`, the state and the logs are `var`.
  - Its methods `Dynamics`, `Integrate`, `Step` and `RunSim` update those fields as the Python methods do, and each is proved against the `Physics` functions.
  - `Valid()` is the class invariant: the clock is a whole number of steps, the logs have equal length, and the rocket and every logged altitude are on or above the ground.

Behaviours of the code that are easy to misread; the model follows the code:

- The trajectory has `ceil(max_time / dt)` points (`np.arange`), not `floor(max_time / dt)` (`ThrustCurve.GridLength`, `Flight.Rocket.RunSim`).
- One parsed sample is enough for `np.interp`. Zero samples, or more times than thrusts, raise `ValueError`.
- The raw samples are not sorted by the code; `np.interp` assumes increasing times, so that is a precondition here.
- A row whose time parses but whose thrust does not still appends its time. This leaves the two raw lists unequal, and `np.interp` then rejects the whole curve (`ThrustCurve.ImportThrustCurve`, `ThrustCurve.UnpairedRowRejectsCurve`).
- Freezing on the ground holds only while the accumulated downward velocity beats the thrust. Velocities keep integrating, and the rocket lifts off again once the new vertical velocity is positive (`Physics.GroundedRunStaysFrozen`, `Physics.LiftOff`).
- `run_sim` does not reset the pose or the logs. A second run continues from where the first ended and appends to the same logs (`Flight.RunTwice`).

## Model

| member | source | states |
|---|---|---|
| ThrustCurve.GridLength | rocket.py:60 | the length of `np.arange(0, max_time, dt)` is the least n with n*dt >= max_time (0 when max_time <= 0) |
| ThrustCurve.BelowHorizon | rocket.py:60 | a point k*dt is below max_time exactly when k is an index of the grid |
| ThrustCurve.Arange | rocket.py:60 | the grid has GridLength points; point i is i*dt and lies in [0, max_time) |
| ThrustCurve.Lerp | rocket.py:61 | np.interp's slope formula on one segment: the line passes through both end samples |
| ThrustCurve.LerpBetween | rocket.py:61 | on its segment the interpolating line stays between the two end samples (no overshoot) |
| ThrustCurve.Inside | rocket.py:61 | inside the sampled range, the value is the line of every segment that brackets x, and equals fp[k] at every sample time xp[k] |
| ThrustCurve.Interp | rocket.py:61 | `np.interp(..., left=0, right=0)`: 0 outside [xp[0], xp[last]], the bracketing segment's line inside, the sample value at each sample time |
| ThrustCurve.InterpBetween | rocket.py:61 | no overshoot: inside a bracket, the interpolated value lies between the two bracketing samples |
| ThrustCurve.Bracket | rocket.py:61 | every time inside the sampled range has a bracketing segment j with xp[j] <= x <= xp[j+1] |
| ThrustCurve.Resample | rocket.py:61 | one thrust per grid time: 0 at every time outside the sampled range; at a time inside a segment, that segment's line, lying between its two samples; at a sample time, that sample's thrust |
| ThrustCurve.BuildTable | rocket.py:60-61 | fails exactly on no samples (EmptySamples) or unequal raw lists (LengthMismatch); otherwise times is the arange grid and thrusts has one entry per grid point |
| ThrustCurve.ResampledThrust | rocket.py:60-61 | the thrust at grid index i is 0 before the first or after the last raw time; otherwise it is the line through the bracketing raw samples and lies between their thrusts; with one sample it is that sample's thrust |
| ThrustCurve.TimeColumn | rocket.py:53-55 | what the loop appends to raw_times: at most one time per row |
| ThrustCurve.ThrustColumn | rocket.py:53-56 | what the loop appends to raw_thrusts: at most one thrust per row |
| ThrustCurve.ColumnsFromRows | rocket.py:53-58 | every time that parses is in raw_times and every entry of raw_times is some row's parsed time; every thrust of a row that parses in both columns is in raw_thrusts and every entry of raw_thrusts comes from such a row |
| ThrustCurve.CollectSamples | rocket.py:53-58 | the loop returns the time column (every row whose time converts) and the thrust column (every row where both convert) |
| ThrustCurve.ColumnsAlign | rocket.py:53-58 | raw_thrusts is never longer than raw_times, and the two are equally long if and only if no row has a time without a thrust |
| ThrustCurve.ImportThrustCurve | rocket.py:44-63 | returns the table built from the collected columns; it fails if and only if no time converts or some row has a time but no thrust |
| ThrustCurve.UnpairedRowRejectsCurve | rocket.py:53-61 | a header row is skipped without effect, while a single row with a time and no thrust makes the whole curve fail with LengthMismatch |
| Physics.Dynamics | rocket.py:77-89 | only the accelerations change; each obeys Newton's second law (a*m = thrust component minus weight, alpha*I = torque); zero thrust gives free fall, and a straight gimbal gives no angular acceleration |
| Physics.Integrate | rocket.py:91-102 | every velocity gains acceleration*dt; y moves by the new y velocity and is clamped to 0 at or below the ground, and then x and theta stay put; otherwise x and theta move by their new velocities; y is never negative |
| Physics.SemiImplicitAirborne | rocket.py:92-102 | airborne, each position moves by v*dt + a*dt^2, so this step's acceleration already acts on the position |
| Physics.Step | rocket.py:72-74 | dynamics then integrate: y is never negative afterwards and the gimbal angle is unchanged |
| Physics.Run | rocket.py:65-75 | the state after one step per thrust, in order: the gimbal angle never changes, and the final altitude is on or above the ground once a step has been taken or if the run started there |
| Physics.Snapshots | rocket.py:66-68 | logged entry i is the pose after the first i steps of the run, one entry per step |
| Physics.RunExtend | rocket.py:65-74 | the run on the first k+1 thrusts is one step on the run over the first k, and each log grows by the pose that step starts from |
| Physics.RunStaysAboveGround | rocket.py:96-98 | starting on or above the ground, the final state and every logged altitude are on or above the ground |
| Physics.StepHoldsAttitude | rocket.py:82-102 | with the gimbal straight and no spin, a step leaves theta, theta_vel and the gimbal exactly as they were |
| Physics.RunHoldsAttitude | rocket.py:82-102 | over any run with the gimbal straight, the final theta and every logged theta equal the initial angle |
| Physics.CoastingStepDescends | rocket.py:85-98 | with no thrust and a non-positive y velocity, a step never raises y, and y_vel drops by g*dt |
| Physics.CoastingRunDescends | rocket.py:85-98 | a coasting run from a descending state never ends above its start, and y_vel drops by g*dt per step, airborne or grounded |
| Physics.GroundedRunStaysFrozen | rocket.py:92-99 | on the ground with no thrust, y stays 0 and x and theta are frozen, y_vel keeps accumulating gravity, x_vel and theta_vel keep their values |
| Physics.LiftOff | rocket.py:96-102 | from the ground, a step whose new y velocity is positive leaves the ground and moves x again by the new x velocity |
| Flight.TruncTowardZero | rocket.py:70 | Python's int() on a float (Flight.Trunc) rounds toward zero: the integer at most 1 away from r on the side of 0 |
| Flight.Elapsed | rocket.py:75 | the clock after k additions of dt from 0 is non-negative for dt >= 0 and at least dt once a step has been taken |
| Flight.ElapsedIsProduct | rocket.py:75 | k additions of dt to a clock at 0 give k*dt |
| Flight.IndexOfTick | rocket.py:70 | after k steps, the lookup index int(time/dt) is exactly k |
| Flight.ClockBelowHorizon | rocket.py:106 | after k steps, the loop test time < max_time holds exactly when k is a grid index |
| Flight.TraceExtends | rocket.py:65-75 | stepping with thrusts[k] and logging the current pose turns the state and logs after k steps into those after k+1 steps |
| Flight.Rocket.constructor | rocket.py:9-43 | clock 0, pose (0, 0, initial_angle), all rates and the gimbal 0, empty logs, parameters and table stored; the invariant and the straight-gimbal attitude hold |
| Flight.Rocket.Create | rocket.py:9-63 | construction with the thrust curve imported from the rows: fails with np.interp's error exactly when BuildTable fails, otherwise a fresh valid rocket that stores every parameter, the built table and sin/cos, with clock 0, pose (0, 0, initial_angle), all rates and the gimbal 0, and empty logs |
| Flight.Rocket.Dynamics | rocket.py:77-89 | sets exactly the three accelerations, to the values Physics.Dynamics gives |
| Flight.Rocket.Integrate | rocket.py:91-102 | updates velocities and positions, including the early return at the ground, to Physics.Integrate's result |
| Flight.Rocket.Step | rocket.py:65-75 | each log first grows by the current pose. If the index is inside the table, the state becomes Physics.Step with thrusts[index] and the clock advances by dt. Past the table (IndexError) nothing else changes. The invariant and the held attitude are preserved |
| Flight.Rocket.RunSim | rocket.py:104-107 | exactly one step per grid point: the clock ends at ceil(max_time/dt) steps, the state is the Physics.Run over the whole table, each log has the run's poses appended, and the invariant and attitude are preserved |
| Flight.RunTwice | rocket.py:104-107 | two run_sim calls on a fresh rocket leave each log twice as long as the thrust table |

## Left out

- Reading the CSV file (`open`, `strip`, `csv.reader`) and `float()` on text are input. `Flight.Rocket.Create` takes the rows with every cell already converted: `Some(v)`, or `None` when `float` raises or the column is missing.
- Floating point: the model computes on exact reals, so the rounding of `time += dt`, of `np.arange` and of the physics is not modelled. In particular, the float clock drifting against the index `int(time / dt)` is not modelled.
- `np.sin` and `np.cos` are parameters of the rocket. The only fact used about them is sin(0) = 0; np.pi is written as 3.141592653589793, the shortest decimal that rounds to that double, not its exact value.
- ThrustCurve.ImportThrustCurve: requires strictly increasing raw times, because `np.interp` does not check its sample times and gives meaningless values for unsorted ones. This also excludes sorted curves that repeat a time, which `np.interp` accepts; the model does not state the value it gives for them.
- Flight.Rocket.Create: requires strictly increasing raw times for the same reason, which also excludes sorted curves that repeat a time. It also requires dt, mass and moment of inertia positive, because a zero divisor in numpy gives inf or nan and `np.arange` with step 0 raises.
- Flight.Rocket.constructor: requires the same positive parameters, and a table on the grid of its own max_time and dt as `import_thrust_curve` builds it.
- Flight.Rocket.RunSim: states the final clock as `Elapsed(|thrusts|, dt)`, k additions of dt. `Flight.ElapsedIsProduct` shows that this equals `|thrusts| * dt`.
- `sim.py` (the configuration constants and the matplotlib plots) and the unused `scipy` and `matplotlib` imports of `rocket.py` are not part of this model.
