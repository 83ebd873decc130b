/** The tracking loop of the path_tracker node as an object: the loop
    variables of main become fields, one pass through the loop body becomes
    Tick, and a return from main clears `running`. */
module Tracker {
  import opened Geometry
  import opened Control

  class PathTracker {
    const path: seq<XYVector>
    const totalPts: int
    const gains: Gains
    const lib: Libm

    var idx: int
    var prevTime: real
    var posErrPrev: real
    var angErrPrev: real
    var twist: Twist
    var running: bool

    /** The loop variables as a value. */
    function State(): Loop
      reads this
    {
      Loop(idx, prevTime, posErrPrev, angErrPrev, twist, running)
    }

    ghost predicate Valid()
      reads this
    {
      totalPts == |path| && Inv(path, State())
    }

    /** The set-up before the loop: cursor at the first waypoint, all errors 0,
        the clock read once at startTime. */
    constructor (path: seq<XYVector>, gains: Gains, lib: Libm, startTime: real)
      ensures Valid()
      ensures this.path == path && this.gains == gains && this.lib == lib
      ensures State() == Init(startTime)
    {
      this.path := path;
      this.gains := gains;
      this.lib := lib;
      totalPts := |path|;
      idx := 0;
      prevTime := startTime;
      posErrPrev, angErrPrev := 0.0, 0.0;
      twist := Stop;
      running := true;
    }

    /** One pass through the loop body with the latest pose and clock reading.
        posErrPrev and angErrPrev are outside the frame: the loop never
        writes them. */
    method Tick(pose: Pose, now: real) returns (out: Outcome)
      requires Valid() && running
      modifies this`idx, this`prevTime, this`twist, this`running
      ensures Valid()
      ensures State() == Step(gains, lib, path, old(State()), pose, now).0
      ensures out == Step(gains, lib, path, old(State()), pose, now).1
    {
      ghost var want := Step(gains, lib, path, State(), pose, now);
      if |path| == 0 {
        running := false;
        return EmptyPath;
      }

      var advanced := false;
      if Dist(lib, pose.pos, path[idx]) < gains.closeEnough {
        idx := idx + 1;
        advanced := true;
        if idx == totalPts {
          twist := twist.(linear := 0.0);
          twist := twist.(angular := 0.0);
          running := false;
          return Completed;
        }
      }

      var dt := now - prevTime;
      if dt == 0.0 {
        assert want == (State(), Skipped(advanced));
        return Skipped(advanced);
      }
      prevTime := prevTime + dt;

      var target := path[idx];
      var posErr := PosErr(lib, target, pose);
      var angErr := AngErr(lib, target, pose);

      var dLin := (posErr - posErrPrev) / dt;
      var dAng := (angErr - angErrPrev) / dt;

      twist := Twist(gains.kpLin * posErr + gains.kdLin * dLin,
                     gains.kpAng * angErr + gains.kdAng * dAng);
      out := Commanded(advanced, posErr, angErr, twist);
      assert want.1 == out;
      assert want.0 == State();
    }
  }

  /** Ticks the tracker with a sequence of readings until main would return
      or the readings run out, collecting what each tick made visible. */
  method Drive(t: PathTracker, readings: seq<Reading>) returns (outs: seq<Outcome>)
    requires t.Valid()
    modifies t
    ensures t.Valid()
    ensures (t.State(), outs) == Run(t.gains, t.lib, t.path, old(t.State()), readings)
  {
    outs := [];
    var i := 0;
    ghost var s0 := t.State();
    assert readings[0..] == readings;
    assert outs + Run(t.gains, t.lib, t.path, s0, readings).1 == Run(t.gains, t.lib, t.path, s0, readings).1;
    while i < |readings| && t.running
      invariant 0 <= i <= |readings| && t.Valid()
      invariant Run(t.gains, t.lib, t.path, s0, readings)
             == (Run(t.gains, t.lib, t.path, t.State(), readings[i..]).0,
                 outs + Run(t.gains, t.lib, t.path, t.State(), readings[i..]).1)
      decreases |readings| - i
    {
      ghost var before := t.State();
      RunUnfold(t.gains, t.lib, t.path, before, readings[i..]);
      assert readings[i..][0] == readings[i] && readings[i..][1..] == readings[i + 1..];
      var o := t.Tick(readings[i].pose, readings[i].now);
      ghost var rest := Run(t.gains, t.lib, t.path, t.State(), readings[i + 1..]);
      assert outs + ([o] + rest.1) == (outs + [o]) + rest.1;
      outs := outs + [o];
      i := i + 1;
    }
    assert Run(t.gains, t.lib, t.path, t.State(), readings[i..]) == (t.State(), []);
    assert outs + [] == outs;
  }
}
