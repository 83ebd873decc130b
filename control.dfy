/** One iteration of the path tracker's control loop, as a function from the
    loop variables before the iteration to the loop variables after it and
    what the iteration made visible (a published twist, a return from main).
    Run folds it over a sequence of iterations; the PathTracker class in
    module Tracker executes the same iteration imperatively. */
module Control {
  import opened Geometry

  datatype Option<T> = None | Some(value: T)

  /** The two twist fields the tracker writes: linear.x and angular.z. */
  datatype Twist = Twist(linear: real, angular: real)

  /** A default-constructed twist, and the one published on completion. */
  const Stop := Twist(0.0, 0.0)

  /** The five parameters read at start-up. */
  datatype Gains = Gains(closeEnough: real, kpLin: real, kdLin: real, kpAng: real, kdAng: real)

  /** The pose last stored by the pose callback: position and yaw. */
  datatype Pose = Pose(pos: XYVector, ang: real)

  /** What one iteration reads from outside: the pose and the clock. */
  datatype Reading = Reading(pose: Pose, now: real)

  /** The variables of main whose values carry from one iteration to the next. */
  datatype Loop = Loop(
    idx: int,
    prevTime: real,
    posErrPrev: real,
    angErrPrev: real,
    twist: Twist,
    running: bool)  // false once main has returned

  /** What one iteration does that can be seen from outside. */
  datatype Outcome =
    | EmptyPath                              // warns and returns from main
    | Completed                              // publishes Stop and returns from main
    | Skipped(advanced: bool)                // dt == 0: continue, nothing published
    | Commanded(advanced: bool, posErr: real, angErr: real, cmd: Twist)  // publishes the PD command
  {
    /** The iteration moved the waypoint cursor. */
    predicate Advanced() {
      match this
      case EmptyPath => false
      case Completed => true
      case Skipped(a) => a
      case Commanded(a, _, _, _) => a
    }

    /** The iteration returned from main. */
    predicate Terminal() {
      EmptyPath? || Completed?
    }

    /** The twist the iteration published, if any. */
    function Published(): Option<Twist> {
      match this
      case Completed => Some(Stop)
      case Commanded(_, _, _, t) => Some(t)
      case _ => None
    }
  }

  /** The cursor stays inside the path, and strictly inside while the loop runs. */
  ghost predicate Inv(path: seq<XYVector>, s: Loop) {
    0 <= s.idx <= |path| && (s.running && |path| > 0 ==> s.idx < |path|)
  }

  /** The loop variables as main sets them up before entering the loop. */
  function Init(startTime: real): (s: Loop)
    ensures s.running && s.idx == 0 && s.prevTime == startTime
    ensures s.posErrPrev == 0.0 && s.angErrPrev == 0.0 && s.twist == Stop
  {
    Loop(0, startTime, 0.0, 0.0, Stop, true)
  }

  /** Proportional plus derivative term: kp * err + kd * (err - errPrev) / dt. */
  function PdTerm(kp: real, kd: real, err: real, errPrev: real, dt: real): real
    requires dt != 0.0
  {
    kp * err + kd * ((err - errPrev) / dt)
  }

  /** The heading unit vector (cos yaw, sin yaw). */
  function Facing(lib: Libm, ang: real): XYVector {
    XYVector(lib.cos(ang), lib.sin(ang))
  }

  /** The longitudinal error: the vector to the target projected on the
      heading, positive when the target lies ahead. */
  function PosErr(lib: Libm, target: XYVector, pose: Pose): real {
    Dot(target.Sub(pose.pos), Facing(lib, pose.ang))
  }

  /** A vehicle standing on the target has no longitudinal error, whatever
      its yaw. */
  lemma PosErrOnTarget(lib: Libm, target: XYVector, ang: real)
    ensures PosErr(lib, target, Pose(target, ang)) == 0.0
  {
    assert target.Sub(target) == Origin;
  }

  /** The longitudinal error depends only on the vector from the vehicle to
      the target, not on where the two stand. */
  lemma PosErrTranslate(lib: Libm, target: XYVector, pose: Pose, d: XYVector)
    ensures PosErr(lib, target.Add(d), pose.(pos := pose.pos.Add(d))) == PosErr(lib, target, pose)
  {
    assert target.Add(d).Sub(pose.pos.Add(d)) == target.Sub(pose.pos);
  }

  /** The heading error: the bearing of the target less the yaw, wrapped. */
  function AngErr(lib: Libm, target: XYVector, pose: Pose): (r: real)
    ensures -PI <= r < PI
  {
    LimitAngle(Heading(lib, pose.pos, target) - pose.ang)
  }

  /** One pass through the body of the while loop (ROS calls left out). */
  function Step(gains: Gains, lib: Libm, path: seq<XYVector>, s: Loop, pose: Pose, now: real): (r: (Loop, Outcome))
    requires Inv(path, s) && s.running
    ensures Inv(path, r.0)
    ensures r.0.idx == s.idx + (if r.1.Advanced() then 1 else 0)
    ensures r.1.Advanced() <==> |path| > 0 && Dist(lib, pose.pos, path[s.idx]) < gains.closeEnough
    ensures r.1.Terminal() <==> !r.0.running
    ensures r.1 == EmptyPath <==> |path| == 0
    ensures r.1 == Completed <==> r.1.Advanced() && s.idx + 1 == |path|
    ensures r.1.Skipped? <==> !r.1.Terminal() && now == s.prevTime
    ensures r.0.posErrPrev == s.posErrPrev && r.0.angErrPrev == s.angErrPrev
  {
    if |path| == 0 then
      (s.(running := false), EmptyPath)
    else
      var advanced := Dist(lib, pose.pos, path[s.idx]) < gains.closeEnough;
      var idx := if advanced then s.idx + 1 else s.idx;
      if advanced && idx == |path| then
        (s.(idx := idx, twist := Stop, running := false), Completed)
      else
        var dt := now - s.prevTime;
        if dt == 0.0 then
          (s.(idx := idx), Skipped(advanced))
        else
          var target := path[idx];
          var posErr := PosErr(lib, target, pose);
          var angErr := AngErr(lib, target, pose);
          var dLin := (posErr - s.posErrPrev) / dt;
          var dAng := (angErr - s.angErrPrev) / dt;
          var twist := Twist(gains.kpLin * posErr + gains.kdLin * dLin,
                             gains.kpAng * angErr + gains.kdAng * dAng);
          (s.(idx := idx, prevTime := s.prevTime + dt, twist := twist), Commanded(advanced, posErr, angErr, twist))
  }

  /** Iterations one after another, until main returns or the readings run out. */
  function Run(gains: Gains, lib: Libm, path: seq<XYVector>, s: Loop, readings: seq<Reading>): (r: (Loop, seq<Outcome>))
    requires Inv(path, s)
    ensures Inv(path, r.0)
    ensures |r.1| <= |readings|
    ensures r.0.posErrPrev == s.posErrPrev && r.0.angErrPrev == s.angErrPrev
    decreases |readings|
  {
    if |readings| == 0 || !s.running then
      (s, [])
    else
      var step := Step(gains, lib, path, s, readings[0].pose, readings[0].now);
      var rest := Run(gains, lib, path, step.0, readings[1..]);
      (rest.0, [step.1] + rest.1)
  }

  /** A run that goes on is one iteration followed by the rest of the run. */
  lemma RunUnfold(gains: Gains, lib: Libm, path: seq<XYVector>, s: Loop, readings: seq<Reading>)
    requires Inv(path, s) && s.running && |readings| > 0
    ensures var step := Step(gains, lib, path, s, readings[0].pose, readings[0].now);
      var rest := Run(gains, lib, path, step.0, readings[1..]);
      Run(gains, lib, path, s, readings) == (rest.0, [step.1] + rest.1)
  {
  }

  /** The number of iterations that moved the cursor. */
  function CountAdvances(os: seq<Outcome>): nat {
    if os == [] then 0 else (if os[0].Advanced() then 1 else 0) + CountAdvances(os[1..])
  }

  // ---------------------------------------------------------------------
  // One iteration

  /** A vehicle standing on the current waypoint advances past it when the
      arrival radius is positive. */
  lemma StepOnWaypointAdvances(gains: Gains, lib: Libm, path: seq<XYVector>, s: Loop, pose: Pose, now: real)
    requires Inv(path, s) && s.running && |path| > 0
    requires Lawful(lib) && 0.0 < gains.closeEnough && pose.pos == path[s.idx]
    ensures Step(gains, lib, path, s, pose, now).1.Advanced()
    ensures Step(gains, lib, path, s, pose, now).0.idx == s.idx + 1
  {
    assert Dist(lib, pose.pos, path[s.idx]) == 0.0;
  }

  /** Completion publishes a zero twist. */
  lemma StepCompletedStops(gains: Gains, lib: Libm, path: seq<XYVector>, s: Loop, pose: Pose, now: real)
    requires Inv(path, s) && s.running
    requires Step(gains, lib, path, s, pose, now).1 == Completed
    ensures Step(gains, lib, path, s, pose, now).0.twist == Stop
    ensures Step(gains, lib, path, s, pose, now).1.Published() == Some(Stop)
    ensures Step(gains, lib, path, s, pose, now).0.idx == |path|
  {
  }

  /** An empty path returns before touching any waypoint, and publishes nothing. */
  lemma StepEmptyPath(gains: Gains, lib: Libm, s: Loop, pose: Pose, now: real)
    requires Inv([], s) && s.running
    ensures Step(gains, lib, [], s, pose, now) == (s.(running := false), EmptyPath)
    ensures Step(gains, lib, [], s, pose, now).1.Published() == None
  {
  }

  /** A zero-dt iteration keeps the clock, the errors and the twist, and
      publishes nothing; only the cursor may have moved earlier in it. */
  lemma StepZeroDt(gains: Gains, lib: Libm, path: seq<XYVector>, s: Loop, pose: Pose, now: real)
    requires Inv(path, s) && s.running
    requires Step(gains, lib, path, s, pose, now).1.Skipped?
    ensures var s' := Step(gains, lib, path, s, pose, now).0;
      s' == s.(idx := s'.idx) && s'.running
    ensures Step(gains, lib, path, s, pose, now).1.Published() == None
  {
  }

  /** A commanding iteration steers toward path[idx] for the cursor after any
      advance in the same iteration: the longitudinal error is the projection
      of the vector to the target on the heading, the angular error is the
      wrapped bearing error, and each command is the PD term against the
      stored previous error. */
  lemma StepCommandLaw(gains: Gains, lib: Libm, path: seq<XYVector>, s: Loop, pose: Pose, now: real)
    requires Inv(path, s) && s.running
    requires Step(gains, lib, path, s, pose, now).1.Commanded?
    ensures var (s', o) := Step(gains, lib, path, s, pose, now);
      && now != s.prevTime && s'.running && s'.prevTime == now
      && o.posErr == Dot(path[s'.idx].Sub(pose.pos), Facing(lib, pose.ang))
      && o.angErr == LimitAngle(Heading(lib, pose.pos, path[s'.idx]) - pose.ang)
      && -PI <= o.angErr < PI
      && o.Published() == Some(s'.twist)
    ensures var (s', o) := Step(gains, lib, path, s, pose, now);
      && now != s.prevTime
      && s'.twist == Twist(PdTerm(gains.kpLin, gains.kdLin, o.posErr, s.posErrPrev, now - s.prevTime),
                           PdTerm(gains.kpAng, gains.kdAng, o.angErr, s.angErrPrev, now - s.prevTime))
  {
    var (s', o) := Step(gains, lib, path, s, pose, now);
    var dt := now - s.prevTime;
    assert s'.twist == Twist(gains.kpLin * o.posErr + gains.kdLin * ((o.posErr - s.posErrPrev) / dt),
                             gains.kpAng * o.angErr + gains.kdAng * ((o.angErr - s.angErrPrev) / dt));
  }

  /** A worked case of the PD law: 1 * 2.0 + 0.5 * (2.0 - 1.0) / 0.5 == 3.0. */
  lemma PdTermExample()
    ensures PdTerm(1.0, 0.5, 2.0, 1.0, 0.5) == 3.0
  {
  }

  /** Taken against a previous error of 0, the PD term is a pure proportional
      term with gain kp + kd / dt. */
  lemma PdTermFromZero(kp: real, kd: real, err: real, dt: real)
    requires dt != 0.0
    ensures PdTerm(kp, kd, err, 0.0, dt) == (kp + kd / dt) * err
  {
    assert kd * ((err - 0.0) / dt) == (kd / dt) * err;
  }

  // ---------------------------------------------------------------------
  // Whole runs

  /** The cursor counts the iterations that advanced it. */
  lemma {:induction false} RunAdvances(gains: Gains, lib: Libm, path: seq<XYVector>, s: Loop, readings: seq<Reading>)
    requires Inv(path, s)
    ensures Run(gains, lib, path, s, readings).0.idx == s.idx + CountAdvances(Run(gains, lib, path, s, readings).1)
    decreases |readings|
  {
    if |readings| > 0 && s.running {
      var step := Step(gains, lib, path, s, readings[0].pose, readings[0].now);
      RunAdvances(gains, lib, path, step.0, readings[1..]);
      var os := Run(gains, lib, path, s, readings).1;
      assert os[1..] == Run(gains, lib, path, step.0, readings[1..]).1;
    }
  }

  /** A run ends exactly where main returns: a terminal outcome is the last
      one, no outcome follows it, and a run cut short of its readings ended
      in a terminal outcome. */
  lemma {:induction false} RunStopsAtReturn(gains: Gains, lib: Libm, path: seq<XYVector>, s: Loop, readings: seq<Reading>)
    requires Inv(path, s) && s.running
    ensures var (s', os) := Run(gains, lib, path, s, readings);
      && (forall j :: 0 <= j < |os| && os[j].Terminal() ==> j == |os| - 1)
      && (!s'.running <==> |os| > 0 && os[|os| - 1].Terminal())
      && (|os| < |readings| ==> !s'.running)
    decreases |readings|
  {
    if |readings| > 0 {
      var step := Step(gains, lib, path, s, readings[0].pose, readings[0].now);
      var os := Run(gains, lib, path, s, readings).1;
      var rest := Run(gains, lib, path, step.0, readings[1..]);
      assert os == [step.1] + rest.1;
      if step.0.running {
        RunStopsAtReturn(gains, lib, path, step.0, readings[1..]);
        assert forall j :: 1 <= j < |os| ==> os[j] == rest.1[j - 1];
      } else {
        assert rest.1 == [];
      }
    }
  }

  /** On a non-empty path, a running loop completes exactly when the cursor
      has been advanced to the end of the path. */
  lemma {:induction false} RunCompletes(gains: Gains, lib: Libm, path: seq<XYVector>, s: Loop, readings: seq<Reading>)
    requires Inv(path, s) && s.running && |path| > 0
    ensures var os := Run(gains, lib, path, s, readings).1;
      (Completed in os <==> s.idx + CountAdvances(os) == |path|)
      && s.idx + CountAdvances(os) <= |path|
    decreases |readings|
  {
    RunAdvances(gains, lib, path, s, readings);
    if |readings| > 0 {
      var step := Step(gains, lib, path, s, readings[0].pose, readings[0].now);
      var os := Run(gains, lib, path, s, readings).1;
      var rest := Run(gains, lib, path, step.0, readings[1..]);
      assert os == [step.1] + rest.1;
      assert os[1..] == rest.1;
      if step.0.running {
        RunCompletes(gains, lib, path, step.0, readings[1..]);
        assert step.1 != Completed;
      } else {
        assert rest.1 == [];
      }
    }
  }

  /** A path of N waypoints completes after exactly N advances of the cursor,
      and never takes more than N. */
  lemma CompletesAfterNAdvances(gains: Gains, lib: Libm, path: seq<XYVector>, startTime: real, readings: seq<Reading>)
    requires |path| > 0
    ensures var os := Run(gains, lib, path, Init(startTime), readings).1;
      (Completed in os <==> CountAdvances(os) == |path|) && CountAdvances(os) <= |path|
  {
    RunCompletes(gains, lib, path, Init(startTime), readings);
  }

  /** After completion nothing more is published: the zero twist is the last
      command of the run. */
  lemma NothingAfterCompletion(gains: Gains, lib: Libm, path: seq<XYVector>, startTime: real, readings: seq<Reading>, j: nat)
    requires var os := Run(gains, lib, path, Init(startTime), readings).1;
      j < |os| && os[j] == Completed
    ensures var os := Run(gains, lib, path, Init(startTime), readings).1;
      j == |os| - 1 && os[j].Published() == Some(Stop)
  {
    RunStopsAtReturn(gains, lib, path, Init(startTime), readings);
  }

  /** The j-th outcome of a run is one iteration from the state the first j
      readings led to, and the loop was still running there. */
  lemma {:induction false} RunPrefix(gains: Gains, lib: Libm, path: seq<XYVector>, s: Loop, readings: seq<Reading>, j: nat)
    requires Inv(path, s)
    requires j < |Run(gains, lib, path, s, readings).1|
    ensures j < |readings|
    ensures var before := Run(gains, lib, path, s, readings[..j]).0;
      before.running
      && Run(gains, lib, path, s, readings).1[j] == Step(gains, lib, path, before, readings[j].pose, readings[j].now).1
    decreases j
  {
    var step := Step(gains, lib, path, s, readings[0].pose, readings[0].now);
    var rest := Run(gains, lib, path, step.0, readings[1..]);
    assert Run(gains, lib, path, s, readings).1 == [step.1] + rest.1;
    if j == 0 {
      assert readings[..0] == [];
    } else {
      RunPrefix(gains, lib, path, step.0, readings[1..], j - 1);
      assert readings[..j][0] == readings[0];
      assert readings[..j][1..] == readings[1..][..j - 1];
      assert readings[1..][j - 1] == readings[j];
    }
  }

  /** The previous errors stay at their initial 0, so every command of a run
      from the set-up is the PD law taken against a previous error of 0, with
      dt that iteration's clock step (PdTermFromZero turns it into a
      proportional law). */
  lemma RunCommandsFromZero(gains: Gains, lib: Libm, path: seq<XYVector>, startTime: real, readings: seq<Reading>, j: nat)
    requires var os := Run(gains, lib, path, Init(startTime), readings).1;
      j < |os| && os[j].Commanded?
    ensures j < |readings|
    ensures var before := Run(gains, lib, path, Init(startTime), readings[..j]).0;
      var o := Run(gains, lib, path, Init(startTime), readings).1[j];
      var dt := readings[j].now - before.prevTime;
      dt != 0.0
      && o.cmd == Twist(PdTerm(gains.kpLin, gains.kdLin, o.posErr, 0.0, dt),
                        PdTerm(gains.kpAng, gains.kdAng, o.angErr, 0.0, dt))
  {
    RunPrefix(gains, lib, path, Init(startTime), readings, j);
    var before := Run(gains, lib, path, Init(startTime), readings[..j]).0;
    assert before.posErrPrev == 0.0 && before.angErrPrev == 0.0;
    StepCommandLaw(gains, lib, path, before, readings[j].pose, readings[j].now);
  }

  /** One commanding iteration against previous errors of 0. */
  lemma StepCommandFromZero(gains: Gains, lib: Libm, path: seq<XYVector>, s: Loop, pose: Pose, now: real)
    requires Inv(path, s) && s.running && s.posErrPrev == 0.0 && s.angErrPrev == 0.0
    requires Step(gains, lib, path, s, pose, now).1.Commanded?
    ensures var o := Step(gains, lib, path, s, pose, now).1;
      var dt := now - s.prevTime;
      dt != 0.0
      && o.cmd == Twist((gains.kpLin + gains.kdLin / dt) * o.posErr,
                        (gains.kpAng + gains.kdAng / dt) * o.angErr)
  {
    var o := Step(gains, lib, path, s, pose, now).1;
    var dt := now - s.prevTime;
    StepCommandLaw(gains, lib, path, s, pose, now);
    assert o.cmd == Twist(PdTerm(gains.kpLin, gains.kdLin, o.posErr, 0.0, dt),
                          PdTerm(gains.kpAng, gains.kdAng, o.angErr, 0.0, dt));
    PdTermFromZero(gains.kpLin, gains.kdLin, o.posErr, dt);
    PdTermFromZero(gains.kpAng, gains.kdAng, o.angErr, dt);
  }

  /** With an empty path the first iteration returns and no twist is ever published. */
  lemma EmptyPathRun(gains: Gains, lib: Libm, startTime: real, readings: seq<Reading>)
    requires |readings| > 0
    ensures Run(gains, lib, [], Init(startTime), readings).1 == [EmptyPath]
  {
    var s := Init(startTime);
    var step := Step(gains, lib, [], s, readings[0].pose, readings[0].now);
    assert Run(gains, lib, [], step.0, readings[1..]).1 == [];
  }

  /** A two-waypoint path, such as [(1,0), (2,0)] with arrival radius 0.1: a
      vehicle reported on the first waypoint and then on the second, whatever
      its heading and the clock, advances the cursor to the second waypoint,
      then completes with the zero twist. */
  lemma TwoWaypointScenario(gains: Gains, lib: Libm, path: seq<XYVector>, startTime: real, readings: seq<Reading>)
    requires Lawful(lib) && 0.0 < gains.closeEnough
    requires |path| == 2 && |readings| == 2
    requires readings[0].pose.pos == path[0] && readings[1].pose.pos == path[1]
    ensures var r := Run(gains, lib, path, Init(startTime), readings);
      |r.1| == 2 && r.1[0].Advanced() && !r.1[0].Terminal() && r.1[1] == Completed
      && r.0.idx == 2 && r.0.twist == Stop && !r.0.running
  {
    var r0, r1 := readings[0], readings[1];
    var s1 := Step(gains, lib, path, Init(startTime), r0.pose, r0.now);
    assert Dist(lib, r0.pose.pos, path[0]) == 0.0;
    assert s1.1.Advanced() && s1.1 != Completed && s1.0.running && s1.0.idx == 1;
    var s2 := Step(gains, lib, path, s1.0, r1.pose, r1.now);
    assert Dist(lib, r1.pose.pos, path[1]) == 0.0;
    assert s2.1 == Completed;
    StepCompletedStops(gains, lib, path, s1.0, r1.pose, r1.now);
    assert readings[1..][0] == r1 && readings[1..][1..] == [];
    var tail := Run(gains, lib, path, s2.0, readings[1..][1..]);
    assert tail == (s2.0, []);
    assert [s2.1] + tail.1 == [s2.1];
    var mid := Run(gains, lib, path, s1.0, readings[1..]);
    assert mid == (tail.0, [s2.1] + tail.1);
    assert [s1.1] + mid.1 == [s1.1, s2.1];
  }
}
