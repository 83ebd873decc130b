# path_tracker: a verified model of the waypoint-tracking controller

`path_tracker` is a ROS node of the `ackermann` simulation package. It
follows a list of waypoints. At each iteration of its main loop it does
the following:

- it checks whether the vehicle is within `close_enough` of the current
  waypoint, and if so moves the cursor `idx` to the next one;
- it stops the vehicle and returns from `main` when the last waypoint is
  reached;
- it skips the iteration when the ROS clock has not moved;
- otherwise it computes the longitudinal error and the heading error
  toward the current waypoint and publishes a PD velocity command.

The longitudinal error is the vector to the waypoint projected on the
heading. The heading error is the bearing to the waypoint less the yaw,
wrapped into one turn.

The model has three modules.

- `Geometry` (`geometry.dfy`): the `XYVector` value type and its operators,
  `dist_euc`, `heading`, C's `fmod` and `limit_angle`, all over `real`.
  The default constructor `XYVector()` (lines 11-14) is the constant
  `Origin`; `Scale`'s contract refers to it.
  `M_PI` is an abstract positive constant `PI`. The C math functions `sqrt`,
  `atan2`, `cos` and `sin` are left uninterpreted: they are fields of a
  `Libm` value. `Lawful(lib)` states the only facts used about them: `sqrt`
  is non-negative on non-negative arguments, and `sqrt(0) == 0`.
- `Control` (`control.dfy`): the loop as pure functions. `Loop` holds the
  variables of `main` whose values carry from one iteration to the next
  (`idx`, `prev_time`, `pos_err_prev`, `ang_err_prev`, the twist, and whether
  `main` is still running). `Step` is one pass through the loop body. `Run`
  is a sequence of passes that stops once `main` returns. The lemmas about
  them are in the same module.
- `Tracker` (`tracker.dfy`): the same loop in imperative form. The class
  `PathTracker` has the loop variables as fields, and its method `Tick` runs
  the loop body. `Tick` is proved to compute exactly `Step`. `Drive` runs
  the `while` loop over a sequence of readings and is proved to compute
  exactly `Run`.

Two behaviours of the code are reproduced as written:

- `pos_err_prev` and `ang_err_prev` are set to 0 before the loop and never
  written again. The derivative terms are therefore always
  `(err - 0) / dt`. `Tick`'s frame leaves these two fields out, and
  `RunCommandsFromZero` states that every command of a run from the set-up
  takes its derivative against 0. `PdTermFromZero` and `StepCommandFromZero`
  show what that makes of the law: a proportional term with gain
  `Kp + Kd / dt`.
- The `dt == 0` test comes after the waypoint check. An iteration in which
  the clock has not moved can still advance `idx` (`StepZeroDt`). After a
  non-final advance, the same iteration steers toward the new waypoint
  (`StepCommandLaw`).

Behaviours of the code a reader might not expect:

- Only `dt == 0` is skipped. A negative `dt` goes through the control law.
- A skipped iteration does not undo the advance made earlier in it.
- The previous errors are never updated.
- Completion publishes one zero twist and then `main` returns, so no tick
  follows.

## Model

| member | source | states |
|---|---|---|
| `Geometry.XYVector.Add` | src/ackermann/src/path_tracker.cpp:21-23 | definition without a contract: the component-wise sum; `Geometry.AddSubCancel` and `Geometry.XYVector.Sub` prove it is undone by operator- |
| `Geometry.XYVector.Sub` | src/ackermann/src/path_tracker.cpp:21-27 | operator- undoes operator+: `(a - b) + b == a` |
| `Geometry.XYVector.Scale` | src/ackermann/src/path_tracker.cpp:29-31 | scaling by 1 leaves a vector unchanged; scaling by 0 gives the default-constructed vector |
| `Geometry.AddSubCancel` | src/ackermann/src/path_tracker.cpp:21-27 | operator+ followed by operator- of the same vector is the identity: `(a + b) - b == a` |
| `Geometry.Dot` | src/ackermann/src/path_tracker.cpp:154 | definition without a contract: the product `v.x * h.x + v.y * h.y` written inline for `pos_err`; its symmetry is `Geometry.DotSymmetric` |
| `Geometry.DotSymmetric` | src/ackermann/src/path_tracker.cpp:154 | the projection used for `pos_err` is symmetric in its two vectors |
| `Geometry.Dist` | src/ackermann/src/path_tracker.cpp:47-51 | with a lawful sqrt, `dist_euc` is non-negative and is 0 on equal points |
| `Geometry.DistSymmetric` | src/ackermann/src/path_tracker.cpp:47-51 | `dist_euc(p, q) == dist_euc(q, p)` for any sqrt |
| `Geometry.DistTranslate` | src/ackermann/src/path_tracker.cpp:47-51 | `dist_euc` is unchanged when both points move by the same offset |
| `Geometry.Heading` | src/ackermann/src/path_tracker.cpp:53-57 | definition without a contract: `atan2(tgt.y - src.y, tgt.x - src.x)` with an uninterpreted `atan2`; its law is `Geometry.HeadingTranslate` |
| `Geometry.HeadingTranslate` | src/ackermann/src/path_tracker.cpp:53-57 | `heading` depends only on the vector from source to target |
| `Geometry.Trunc` | src/ackermann/src/path_tracker.cpp:61 | the quotient fmod uses is truncated toward zero: within 1 of the real quotient, on its side of 0 |
| `Geometry.Fmod` | src/ackermann/src/path_tracker.cpp:61 | for a positive modulus m, `fmod(a, m)` lies in [0, m) when a >= 0 and in (-m, 0] when a < 0, and is a less m times the truncated quotient |
| `Geometry.FmodByTurn` | src/ackermann/src/path_tracker.cpp:61 | `fmod(a, 2 * PI)` differs from a by a whole number of turns |
| `Geometry.LimitAngle` | src/ackermann/src/path_tracker.cpp:59-63 | `limit_angle` always returns a value in [-PI, PI) |
| `Geometry.LimitAngleTurns` | src/ackermann/src/path_tracker.cpp:59-63 | `limit_angle(a)` differs from a by an integer multiple of 2 * PI |
| `Geometry.LimitAngleFixed` | src/ackermann/src/path_tracker.cpp:59-63 | an angle already in [-PI, PI) is returned unchanged |
| `Geometry.LimitAnglePeriodic` | src/ackermann/src/path_tracker.cpp:59-63 | `limit_angle(a + 2 * PI * n) == limit_angle(a)` for every integer n |
| `Geometry.LimitAngleIdempotent` | src/ackermann/src/path_tracker.cpp:59-63 | wrapping an already wrapped angle changes nothing |
| `Geometry.LimitAngleBoundary` | src/ackermann/src/path_tracker.cpp:61-62 | `limit_angle(PI) == -PI` and `limit_angle(-PI) == -PI`: a zero remainder takes the `result >= 0` branch |
| `Control.Init` | src/ackermann/src/path_tracker.cpp:116-126 | before the loop: cursor 0, `prev_time` the start reading, both previous errors 0, zero twist, running |
| `Control.PdTerm` | src/ackermann/src/path_tracker.cpp:157-162 | definition without a contract: `Kp * err + Kd * (err - err_prev) / dt` for a non-zero `dt`; its laws are `Control.PdTermFromZero` and `Control.PdTermExample` |
| `Control.Facing` | src/ackermann/src/path_tracker.cpp:153 | definition without a contract: the heading vector `(cos(curr_ang), sin(curr_ang))`, used by `Control.PosErr` |
| `Control.PosErr` | src/ackermann/src/path_tracker.cpp:151-154 | definition without a contract: `target - curr_pos` projected on the heading vector; its laws are `Control.PosErrOnTarget` and `Control.PosErrTranslate` |
| `Control.PosErrOnTarget` | src/ackermann/src/path_tracker.cpp:151-154 | a vehicle standing on the target has `pos_err == 0`, whatever its yaw |
| `Control.PosErrTranslate` | src/ackermann/src/path_tracker.cpp:151-154 | `pos_err` is unchanged when the vehicle and the target move by the same offset |
| `Control.AngErr` | src/ackermann/src/path_tracker.cpp:155 | the heading error `limit_angle(heading - curr_ang)` lies in [-PI, PI) |
| `Control.Step` | src/ackermann/src/path_tracker.cpp:128-164 | one iteration keeps `0 <= idx <= total_pts`, and `idx < total_pts` while running on a non-empty path; it advances the cursor by exactly 1 iff the path is non-empty and `dist_euc(curr_pos, path[idx]) < close_enough`, and otherwise leaves it; it returns iff the path is empty or the advance reached `total_pts`; it skips iff it did not return and `dt == 0`; it never changes the previous errors |
| `Control.Run` | src/ackermann/src/path_tracker.cpp:128-170 | iterations one after another keep the cursor invariant and the previous errors, and produce at most one outcome per reading |
| `Control.RunUnfold` | src/ackermann/src/path_tracker.cpp:128-170 | a loop that keeps running is one iteration followed by the rest of the loop |
| `Control.StepOnWaypointAdvances` | src/ackermann/src/path_tracker.cpp:134-135 | with `close_enough > 0`, a vehicle exactly on the current waypoint advances the cursor by 1 |
| `Control.StepCompletedStops` | src/ackermann/src/path_tracker.cpp:136-141 | completion sets `linear.x` and `angular.z` to 0, publishes that zero twist, and leaves `idx == total_pts` |
| `Control.StepEmptyPath` | src/ackermann/src/path_tracker.cpp:129-132 | an empty path returns from `main` before indexing the path, changes nothing else, and publishes nothing |
| `Control.StepZeroDt` | src/ackermann/src/path_tracker.cpp:134-148 | a `dt == 0` iteration leaves `prev_time`, the errors and the twist unchanged and publishes nothing; only an advance made earlier in it remains |
| `Control.StepCommandLaw` | src/ackermann/src/path_tracker.cpp:149-164 | a commanding iteration moves `prev_time` to the reading; it steers toward `path[idx]` for the cursor after any advance; `pos_err` is the projection of `target - curr_pos` on `(cos, sin)` of the yaw; `ang_err` is the wrapped bearing error in [-PI, PI); each command is `Kp * err + Kd * (err - err_prev) / dt`, and that twist is published |
| `Control.PdTermExample` | src/ackermann/src/path_tracker.cpp:157-162 | a worked case `Kp = 1, Kd = 0.5, err = 2, prev = 1, dt = 0.5` gives 3 |
| `Control.PdTermFromZero` | src/ackermann/src/path_tracker.cpp:157-162 | against a previous error of 0, the PD law is the proportional law with gain `Kp + Kd / dt` |
| `Control.StepCommandFromZero` | src/ackermann/src/path_tracker.cpp:146-162 | a commanding iteration whose previous errors are 0 has a non-zero `dt` and commands `((Kp_lin + Kd_lin / dt) * pos_err, (Kp_ang + Kd_ang / dt) * ang_err)` |
| `Control.RunPrefix` | src/ackermann/src/path_tracker.cpp:128-170 | the j-th outcome of a run is one iteration from the state the first j readings led to, where the loop was still running |
| `Control.RunCommandsFromZero` | src/ackermann/src/path_tracker.cpp:116-162 | in any run from the set-up, every command is the PD law taken against a previous error of 0, with `dt` the clock step of that iteration, which is never 0 |
| `Control.RunAdvances` | src/ackermann/src/path_tracker.cpp:134-135 | over any run, the cursor has moved by exactly the number of iterations that advanced it |
| `Control.RunStopsAtReturn` | src/ackermann/src/path_tracker.cpp:128-142 | a return from `main` is the last outcome of a run; the loop has stopped iff its last outcome was a return; a run that used fewer readings than it had has stopped |
| `Control.RunCompletes` | src/ackermann/src/path_tracker.cpp:134-141 | on a non-empty path a running loop completes iff the cursor's advances reach the end of the path, and they never go past it |
| `Control.CompletesAfterNAdvances` | src/ackermann/src/path_tracker.cpp:116-141 | from the initial state, a path of N waypoints completes iff there have been exactly N advances, and never more than N |
| `Control.NothingAfterCompletion` | src/ackermann/src/path_tracker.cpp:136-141 | from the initial state, a completion is the last outcome of the run and it publishes the zero twist |
| `Control.EmptyPathRun` | src/ackermann/src/path_tracker.cpp:129-132 | with an empty path the first iteration returns and no twist is ever published |
| `Control.TwoWaypointScenario` | src/ackermann/src/path_tracker.cpp:128-142 | on a two-waypoint path, a vehicle reported on the first waypoint and then on the second advances, then completes with the zero twist and `idx == 2` |
| `Tracker.PathTracker.constructor` | src/ackermann/src/path_tracker.cpp:114-126 | the set-up before the loop yields the initial loop state and a valid tracker |
| `Tracker.PathTracker.Tick` | src/ackermann/src/path_tracker.cpp:128-164 | one pass through the loop body, executed in place, leaves the fields and returns exactly what `Step` gives, and never writes `pos_err_prev` or `ang_err_prev` |
| `Tracker.Drive` | src/ackermann/src/path_tracker.cpp:128-170 | the `while` loop, run until `main` returns or the readings run out, yields exactly `Run` |

## Left out

- ROS set-up and transport are not modelled: `ros::init`, the node handle, the publishers and subscriber, `publish`, `spinOnce`, `loop_rate.sleep` and `ros::ok` (lines 66-68, 91-93, 164-169). Publication is the visible outcome of a tick. External shutdown is the end of the readings.
- Logging is not modelled: the `ROS_WARN` on an empty path (line 130) and the `ROS_INFO` on completion (line 140). The `EmptyPath` and `Completed` outcomes mark those two returns.
- Parameter loading with defaults and `ROS_WARN` (lines 70-89) is not modelled. The radius and the four gains are a `Gains` value given to the constructor.
- The pose callback `cbPose` and its quaternion-to-yaw conversion (lines 34-45) are asynchronous input and trigonometry. The pose is a parameter of each tick.
- The hard-coded 40-point sine path and its publication (lines 95-112) are not modelled. The path is any sequence of waypoints.
- `ros::Time::now()` (lines 120, 145) is the `startTime` constructor argument and the `now` argument of each tick.
- A zero-`dt` `continue` also skips `spinOnce` and `sleep`, so in the node the next iteration sees the same `curr_pos` and `curr_ang`. Likewise the first iteration sees the zero-initialised globals, because nothing spins before the loop. The model accepts any pose at these points, so its lemmas cover more traces than the node can produce.
- IEEE double rounding is not modelled: all arithmetic is exact over `real`. In particular `prev_time += dt` gives exactly the new reading.
- `sqrt`, `atan2`, `cos` and `sin` are uninterpreted. Only non-negativity of `sqrt` and `sqrt(0) == 0` are assumed. So `heading`'s range (-PI, PI] and the sign of the projected error are not derivable.
- `M_PI` is abstract, so no property depends on its numeric value.
- The narrowing of `path.size()` to `int` (line 117) is not modelled. The model's cursor is unbounded.
- `pos_err`, `ang_err`, `D_lin` and `D_ang` are declared before the loop but are always written before they are read in the same iteration. They are locals of `Tick`; the two errors are reported in the `Commanded` outcome.
- Only `linear.x` and `angular.z` of the twist are modelled. The node never writes the other components, which stay 0.
- Geometry.Dist: its non-negativity and zero-on-equal-points hold only for a `Lawful` `sqrt`, because the real `sqrt` is not defined here.
- Control.TwoWaypointScenario: stated for any two-waypoint path and any positive radius, with the vehicle reported exactly on each waypoint in turn. How `pos_err` changes while the vehicle drives toward a waypoint is not stated, because vehicle motion and trigonometry are outside the model.
