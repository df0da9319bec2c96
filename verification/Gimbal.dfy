/** The slew-limited gimbal loop of pkg/mavlink/mavlink.go. A step reads a snapshot under the
    lock, computes outside it, writes back under the lock and then emits; commands may land in
    between. Angles and rates are exact reals. */
module Gimbal {
  import opened Common

  const RECENTER_AFTER := 350 * MILLISECOND
  const CENTER_SNAP := 0.5
  const MAX_DT := 250 * MILLISECOND
  const LOOP_PERIOD := 0.05   // seconds, 20 Hz

  function Abs(x: real): real {
    if x < 0.0 then -x else x
  }

  function Clamp(x: real, bound: real): real {
    if x < -bound then -bound else if x > bound then bound else x
  }

  // How far, in degrees, pan and tilt may move in dt seconds.
  function PanStep(dt: real): real {
    220.0 * dt
  }

  function TiltStep(dt: real): real {
    140.0 * dt
  }

  // ---------- one axis ----------

  function Slew(cur: real, tgt: real, maxStep: real): real {
    if tgt - cur > maxStep then cur + maxStep
    else if tgt - cur < -maxStep then cur - maxStep
    else tgt
  }

  function Snap(x: real): real {
    if Abs(x) < CENTER_SNAP then 0.0 else x
  }

  function AxisStep(cur: real, tgt: real, maxStep: real): real {
    Snap(Slew(cur, tgt, maxStep))
  }

  /** Where an axis comes to rest: the target, or centre if the target is inside the snap zone. */
  function Rest(tgt: real): real {
    Snap(tgt)
  }

  /** Never past the target or centre, never faster than the rate apart from a final snap of less
      than half a degree, and never parked inside the snap zone. */
  lemma AxisStepIsSafe(cur: real, tgt: real, maxStep: real, bound: real)
    requires maxStep >= 0.0 && Abs(cur) <= bound && Abs(tgt) <= bound
    ensures var next := AxisStep(cur, tgt, maxStep);
            && -bound <= next <= bound && (next == 0.0 || next <= -0.5 || next >= 0.5)
            && cur - maxStep - 0.5 < next < cur + maxStep + 0.5
            && (next != 0.0 ==> cur - maxStep <= next <= cur + maxStep)
  {
  }

  /** The axis after one step for each entry of steps, an entry being rate times dt. */
  function AxisRun(cur: real, tgt: real, steps: seq<real>): real
    decreases |steps|
  {
    if steps == [] then cur else AxisRun(AxisStep(cur, tgt, steps[0]), tgt, steps[1..])
  }

  /** Side is 1 while centre lies between the axis and its target: the one crossing where the
      centre snap can undo part of a step. */
  function Side(cur: real, tgt: real): real {
    if (cur < 0.0 && tgt > 0.0) || (cur > 0.0 && tgt < 0.0) then 1.0 else 0.0
  }

  /** The measure: the step size per step taken, plus the allowance for the crossing. */
  function Remaining(cur: real, tgt: real, s: real): real {
    if cur == Rest(tgt) then 0.0 else Abs(tgt - cur) + Side(cur, tgt) * s
  }

  lemma MeasureDrops(cur: real, tgt: real, s: real, step: real)
    requires CENTER_SNAP <= s <= step && (cur == 0.0 || Abs(cur) >= CENTER_SNAP)
    ensures var next := AxisStep(cur, tgt, step);
            && (next == 0.0 || Abs(next) >= CENTER_SNAP)
            && (next == Rest(tgt) || Remaining(next, tgt, s) <= Remaining(cur, tgt, s) - s)
  {
    assert Side(cur, tgt) * s == (if Side(cur, tgt) == 1.0 then s else 0.0);
    var next := AxisStep(cur, tgt, step);
    assert Side(next, tgt) * s == (if Side(next, tgt) == 1.0 then s else 0.0);
  }

  lemma RestIsFixed(tgt: real, step: real)
    requires step >= 0.0
    ensures AxisStep(Rest(tgt), tgt, step) == Rest(tgt)
  {
  }

  lemma {:induction false} ConvergesWithin(cur: real, tgt: real, s: real, steps: seq<real>, budget: real)
    requires s >= CENTER_SNAP && (cur == 0.0 || Abs(cur) >= CENTER_SNAP)
    requires forall i | 0 <= i < |steps| :: steps[i] >= s
    requires Remaining(cur, tgt, s) <= budget <= |steps| as real * s
    ensures AxisRun(cur, tgt, steps) == Rest(tgt)
    decreases |steps|
  {
    if steps != [] {
      var next := AxisStep(cur, tgt, steps[0]);
      if cur == Rest(tgt) {
        RestIsFixed(tgt, steps[0]);
        ConvergesWithin(next, tgt, s, steps[1..], 0.0);
      } else {
        MeasureDrops(cur, tgt, s, steps[0]);
        assert (|steps| - 1) as real * s == |steps| as real * s - s;
        ConvergesWithin(next, tgt, s, steps[1..], if budget - s < 0.0 then 0.0 else budget - s);
      }
    } else {
      assert Remaining(cur, tgt, s) <= 0.0;
      assert cur != Rest(tgt) ==> Abs(tgt - cur) > 0.0;
    }
  }

  /** Convergence: if every step may move at least s degrees, with s at least the snap radius,
      the axis is at rest after n + 1 steps for every n with n * s >= distance, and stays there: at
      the target, or at centre if the target is less than half a degree from it. */
  lemma AxisConverges(cur: real, tgt: real, s: real, steps: seq<real>, n: nat)
    requires s >= 0.5 && (cur == 0.0 || Abs(cur) >= 0.5)
    requires forall i | 0 <= i < |steps| :: steps[i] >= s
    requires |steps| > n && n as real * s >= Abs(tgt - cur)
    ensures AxisRun(cur, tgt, steps) == if -0.5 < tgt < 0.5 then 0.0 else tgt
  {
    BudgetCovers(n, |steps|, s, Abs(tgt - cur));
    assert Side(cur, tgt) * s == (if Side(cur, tgt) == 1.0 then s else 0.0);
    ConvergesWithin(cur, tgt, s, steps, Remaining(cur, tgt, s));
  }

  lemma BudgetCovers(n: nat, k: nat, s: real, way: real)
    requires k > n && s >= 0.0 && n as real * s >= way
    ensures way + s <= k as real * s
  {
    MulMono((n + 1) as real, k as real, s);
    assert (n + 1) as real * s == n as real * s + s;
  }

  lemma MulMono(a: real, b: real, s: real)
    requires a <= b && s >= 0.0
    ensures a * s <= b * s
  {
    assert (b - a) * s >= 0.0;
  }

  /** The step-size hypothesis is exact: from centre, towards a target outside the snap zone, a
      step gets away from centre if and only if it may move at least the snap radius. */
  lemma LeavesCenterIff(tgt: real, step: real)
    requires step >= 0.0 && (tgt <= -0.5 || tgt >= 0.5)
    ensures AxisStep(0.0, tgt, step) != 0.0 <==> step >= 0.5
  {
  }

  lemma {:induction false} StuckForever(tgt: real, steps: seq<real>)
    requires (tgt <= -0.5 || tgt >= 0.5) && forall i | 0 <= i < |steps| :: 0.0 <= steps[i] < 0.5
    ensures AxisRun(0.0, tgt, steps) == 0.0
    decreases |steps|
  {
    if steps != [] {
      LeavesCenterIff(tgt, steps[0]);
      StuckForever(tgt, steps[1..]);
    }
  }

  // ---------- the mount ----------

  datatype Pose = Pose(pan: real, tilt: real)

  datatype Mount = Mount(active: bool, target: Pose, cur: Pose, lastUpdate: Option<int>, lastCmd: Option<int>)

  /** The degrees a command asks for: small values are fractions of 90 and 45 degrees. */
  function CommandPose(pan: real, tilt: real): Pose {
    Pose(Clamp(if Abs(pan) <= 2.0 then pan * 90.0 else pan, 180.0),
         Clamp(if Abs(tilt) <= 2.0 then tilt * 45.0 else tilt, 90.0))
  }

  /** deg is what a command value asks for: up to 2.0 a fraction of scale, more as degrees, and
      never beyond bound. */
  predicate Asks(value: real, scale: real, bound: real, deg: real) {
    && (-2.0 <= value <= 2.0 ==> deg == value * scale)
    && (2.0 < value <= bound || -bound <= value < -2.0 ==> deg == value)
    && (value > bound ==> deg == bound) && (value < -bound ==> deg == -bound)
  }

  function OnCommand(m: Mount, now: int, pan: real, tilt: real): Mount {
    m.(active := true, target := CommandPose(pan, tilt), lastCmd := Some(now))
  }

  predicate Quiet(lastCmd: Option<int>, now: int) {
    lastCmd.Some? && now - lastCmd.value > RECENTER_AFTER
  }

  /** The dt of a step in seconds: the loop period at first, then the clamped time since the
      last write-back. */
  function Dt(lastUpdate: Option<int>, now: int): real {
    match lastUpdate
    case None => LOOP_PERIOD
    case Some(u) =>
      var d := now - u;
      Seconds(if d < 0 then 0 else if d > MAX_DT then MAX_DT else d)
  }

  /** Duration.Seconds. */
  function Seconds(d: int): real {
    d as real / 1_000_000_000.0
  }

  /** What a step computes from its snapshot. */
  function Aim(m: Mount, now: int): Pose {
    var t, dt := Goal(m, now), Dt(m.lastUpdate, now);
    Pose(AxisStep(m.cur.pan, t.pan, PanStep(dt)), AxisStep(m.cur.tilt, t.tilt, TiltStep(dt)))
  }

  /** The write-back section; it looks at lastCmd again. */
  function WriteBack(m: Mount, now: int, pose: Pose): Mount {
    m.(cur := pose, lastUpdate := Some(now),
       active := m.active && !(Quiet(m.lastCmd, now) && pose == Pose(0.0, 0.0)))
  }

  predicate Settled(x: real) {
    x == 0.0 || Abs(x) >= CENTER_SNAP
  }

  predicate MountOk(m: Mount) {
    && Abs(m.target.pan) <= 180.0 && Abs(m.target.tilt) <= 90.0
    && Abs(m.cur.pan) <= 180.0 && Abs(m.cur.tilt) <= 90.0
    && Settled(m.cur.pan) && Settled(m.cur.tilt)
    && (!m.active ==> m.cur == Pose(0.0, 0.0))
  }

  predicate PoseOk(p: Pose) {
    Abs(p.pan) <= 180.0 && Abs(p.tilt) <= 90.0 && Settled(p.pan) && Settled(p.tilt)
  }

  lemma DtRange(lastUpdate: Option<int>, now: int)
    ensures 0.0 <= Dt(lastUpdate, now) <= 0.25
  {
  }

  function Goal(m: Mount, now: int): Pose {
    if Quiet(m.lastCmd, now) then Pose(0.0, 0.0) else m.target
  }

  /** What a step computes from its snapshot stays inside the mount's limits. */
  lemma AimInRange(m: Mount, now: int)
    requires MountOk(m)
    ensures PoseOk(Aim(m, now))
  {
    var t, dt := Goal(m, now), Dt(m.lastUpdate, now);
    DtRange(m.lastUpdate, now);
    AxisStepIsSafe(m.cur.pan, t.pan, PanStep(dt), 180.0);
    AxisStepIsSafe(m.cur.tilt, t.tilt, TiltStep(dt), 90.0);
  }

  /** At most limit degrees, or less than half a degree more if the step ends exactly at centre. */
  predicate MovesAtMost(cur: real, next: real, limit: real) {
    if next == 0.0 then -limit - 0.5 < next - cur < limit + 0.5 else -limit <= next - cur <= limit
  }

  lemma AxisMovesAtMost(cur: real, tgt: real, step: real, limit: real)
    requires 0.0 <= step <= limit
    ensures MovesAtMost(cur, AxisStep(cur, tgt, step), limit)
  {
  }

  /** However long the loop was held up, one step moves an axis by at most a quarter second at
      full rate, apart from a final snap. */
  lemma AimIsSlow(m: Mount, now: int)
    ensures MovesAtMost(m.cur.pan, Aim(m, now).pan, 55.0)
    ensures MovesAtMost(m.cur.tilt, Aim(m, now).tilt, 35.0)
  {
    var t, dt := Goal(m, now), Dt(m.lastUpdate, now);
    DtRange(m.lastUpdate, now);
    AxisMovesAtMost(m.cur.pan, t.pan, PanStep(dt), PanStep(0.25));
    AxisMovesAtMost(m.cur.tilt, t.tilt, TiltStep(dt), TiltStep(0.25));
  }

  // ---------- the connection's gimbal fields ----------

  class GimbalMount {
    var gimbalActive: bool
    var targetPan: real
    var targetTilt: real
    var curPan: real
    var curTilt: real
    var lastUpdate: Option<int>
    var lastCmd: Option<int>
    var emitted: seq<Pose>   // the DO_MOUNT_CONTROL commands sent so far

    ghost function AbsMount(): Mount
      reads this
    {
      Mount(gimbalActive, Pose(targetPan, targetTilt), Pose(curPan, curTilt), lastUpdate, lastCmd)
    }

    constructor ()
      ensures MountOk(AbsMount()) && !gimbalActive && lastUpdate == lastCmd == None && emitted == []
    {
      gimbalActive, targetPan, targetTilt, curPan, curTilt := false, 0.0, 0.0, 0.0, 0.0;
      lastUpdate, lastCmd, emitted := None, None, [];
    }

    /** The GIMBAL case of ApplyControl; sysID 0 means that no frame was received yet. */
    method ApplyGimbal(sysID: nat, now: int, pan: real, tilt: real)
      requires MountOk(AbsMount())
      modifies this
      ensures MountOk(AbsMount()) && emitted == old(emitted)
      ensures AbsMount() == if sysID == 0 then old(AbsMount()) else OnCommand(old(AbsMount()), now, pan, tilt)
      ensures sysID != 0 ==> gimbalActive && lastCmd == Some(now)
                             && Asks(pan, 90.0, 180.0, targetPan) && Asks(tilt, 45.0, 90.0, targetTilt)
    {
      if sysID == 0 {
        return;
      }
      var panDeg, tiltDeg := pan, tilt;
      if Abs(pan) <= 2.0 {
        panDeg := pan * 90.0;
      }
      if Abs(tilt) <= 2.0 {
        tiltDeg := tilt * 45.0;
      }
      panDeg, tiltDeg := Clamp(panDeg, 180.0), Clamp(tiltDeg, 90.0);
      gimbalActive, targetPan, targetTilt, lastCmd := true, panDeg, tiltDeg, Some(now);
    }

    /** The elapsed time and the goal a step works with. */
    method Inputs(now: int) returns (goal: Pose, dt: real)
      ensures goal == Goal(AbsMount(), now) && dt == Dt(lastUpdate, now)
    {
      goal, dt := Pose(targetPan, targetTilt), LOOP_PERIOD;
      if lastCmd.Some? && now - lastCmd.value > RECENTER_AFTER {
        goal := Pose(0.0, 0.0);
      }
      if lastUpdate.Some? {
        var d := now - lastUpdate.value;
        if d < 0 {
          d := 0;
        }
        if d > MAX_DT {
          d := MAX_DT;
        }
        dt := Seconds(d);
      }
    }

    /** The first section of driveGimbalStep and the computation after it. */
    method Compute(sysID: nat, now: int) returns (goes: bool, pose: Pose)
      requires MountOk(AbsMount())
      ensures goes == (gimbalActive && sysID != 0)
      ensures goes ==> pose == Aim(AbsMount(), now) && PoseOk(pose)
    {
      goes, pose := false, Pose(0.0, 0.0);
      if !gimbalActive || sysID == 0 {
        return;
      }
      var goal, dt := Inputs(now);
      var pan, tilt := Slew(curPan, goal.pan, PanStep(dt)), Slew(curTilt, goal.tilt, TiltStep(dt));
      if Abs(pan) < CENTER_SNAP {
        pan := 0.0;
      }
      if Abs(tilt) < CENTER_SNAP {
        tilt := 0.0;
      }
      goes, pose := true, Pose(pan, tilt);
      AimInRange(AbsMount(), now);
    }

    /** The second section; the pose is emitted after it. */
    method Save(now: int, pose: Pose)
      requires MountOk(AbsMount()) && PoseOk(pose) && gimbalActive
      modifies this
      ensures MountOk(AbsMount()) && emitted == old(emitted)
      ensures AbsMount() == WriteBack(old(AbsMount()), now, pose)
    {
      curPan, curTilt, lastUpdate := pose.pan, pose.tilt, Some(now);
      var quiet := lastCmd.Some? && now - lastCmd.value > RECENTER_AFTER;
      if quiet && curPan == 0.0 && curTilt == 0.0 {
        gimbalActive := false;
      }
    }

    /** driveGimbalStep with nothing in between. */
    method DriveStep(sysID: nat, now: int)
      requires MountOk(AbsMount())
      modifies this
      ensures MountOk(AbsMount())
      ensures if old(gimbalActive) && sysID != 0
              then AbsMount() == WriteBack(old(AbsMount()), now, Aim(old(AbsMount()), now))
                   && emitted == old(emitted) + [Aim(old(AbsMount()), now)]
              else AbsMount() == old(AbsMount()) && emitted == old(emitted)
    {
      var goes, pose := Compute(sysID, now);
      if goes {
        Save(now, pose);
        emitted := emitted + [pose];
      }
    }
  }

  // ---------- interleaved runs ----------

  datatype Pc = Resting | Aimed(now: int, pose: Pose) | Saved(pose: Pose)

  datatype World = World(mount: Mount, pc: Pc, emitted: seq<Pose>)

  datatype Event = Command(now: int, pan: real, tilt: real) | Look(now: int) | Store | Emit

  const CENTERED := World(Mount(false, Pose(0.0, 0.0), Pose(0.0, 0.0), None, None), Resting, [])

  /** One section of the loop, or a command landing between two of them (sysID nonzero). */
  function Step(w: World, e: Event): World {
    match (e, w.pc)
    case (Command(now, pan, tilt), _) => w.(mount := OnCommand(w.mount, now, pan, tilt))
    case (Look(now), Resting) => if w.mount.active then w.(pc := Aimed(now, Aim(w.mount, now))) else w
    case (Store, Aimed(now, pose)) => w.(mount := WriteBack(w.mount, now, pose), pc := Saved(pose))
    case (Emit, Saved(pose)) => w.(pc := Resting, emitted := w.emitted + [pose])
    case _ => w
  }

  function Run(w: World, es: seq<Event>): World {
    if es == [] then w else Step(Run(w, es[..|es| - 1]), es[|es| - 1])
  }

  /** One pose follows another at no more than a quarter second's full rate: 55 degrees of pan and
      35 of tilt. */
  predicate NextIsSlow(cur: Pose, next: Pose) {
    MovesAtMost(cur.pan, next.pan, 55.0) && MovesAtMost(cur.tilt, next.tilt, 35.0)
  }

  /** What the mount was told, after the centre it starts from. */
  function Told(w: World): seq<Pose> {
    [Pose(0.0, 0.0)] + w.emitted
  }

  /** No pose of the list is further from the one before than one slow step. */
  predicate Slow(told: seq<Pose>) {
    forall i: nat | 0 < i < |told| :: NextIsSlow(told[i - 1], told[i])
  }

  /** Nothing the mount is told jumps: the loop's own angles are the last ones it was told, or the
      next ones it will be. */
  ghost predicate NeverJumps(w: World) {
    var told := Told(w);
    && Slow(told)
    && (!w.pc.Saved? ==> told[|told| - 1] == w.mount.cur)
    && (w.pc.Saved? ==> w.pc.pose == w.mount.cur && NextIsSlow(told[|told| - 1], w.pc.pose))
  }

  ghost predicate WorldOk(w: World) {
    && MountOk(w.mount)
    && (w.pc.Aimed? ==> w.mount.active && PoseOk(w.pc.pose) && NextIsSlow(w.mount.cur, w.pc.pose))
    && (w.pc.Saved? ==> PoseOk(w.pc.pose) && (!w.mount.active ==> w.pc.pose == Pose(0.0, 0.0)))
    && (forall p | p in w.emitted :: PoseOk(p))
    // the last word before silence is exact centre
    && (w.pc.Resting? && !w.mount.active && w.emitted != [] ==> w.emitted[|w.emitted| - 1] == Pose(0.0, 0.0))
  }

  lemma StepKeepsWorld(w: World, e: Event)
    requires WorldOk(w)
    ensures WorldOk(Step(w, e))
  {
    if e.Look? && w.pc.Resting? {
      AimInRange(w.mount, e.now);
      AimIsSlow(w.mount, e.now);
    }
  }

  /** Under every interleaving of commands with the two-section step: angles stay in range and
      out of the snap zone, a computed pose is never further than one slow step from the pose it
      will replace, an inactive mount is centred, and the last command emitted before falling
      silent is exact centre. */
  lemma {:induction false} WorldAlwaysOk(es: seq<Event>)
    ensures WorldOk(Run(CENTERED, es))
  {
    if es != [] {
      WorldAlwaysOk(es[..|es| - 1]);
      StepKeepsWorld(Run(CENTERED, es[..|es| - 1]), es[|es| - 1]);
    }
  }

  lemma EmitKeepsSlow(told: seq<Pose>, p: Pose)
    requires told != [] && Slow(told) && NextIsSlow(told[|told| - 1], p)
    ensures Slow(told + [p])
  {
  }

  lemma StepNeverJumps(w: World, e: Event)
    requires WorldOk(w) && NeverJumps(w)
    ensures NeverJumps(Step(w, e))
  {
    if e.Emit? && w.pc.Saved? {
      EmitKeepsSlow(Told(w), w.pc.pose);
      assert Told(Step(w, e)) == Told(w) + [w.pc.pose];
    }
  }

  /** The rate limit under every interleaving, on what goes out: consecutive poses sent to the
      mount differ by at most a quarter second at full rate plus a final snap, however late steps
      run and whatever commands arrive between or inside them. */
  lemma {:induction false} SentPosesAreSlow(es: seq<Event>)
    ensures NeverJumps(Run(CENTERED, es))
  {
    if es != [] {
      var n := |es| - 1;
      SentPosesAreSlow(es[..n]);
      WorldAlwaysOk(es[..n]);
      StepNeverJumps(Run(CENTERED, es[..n]), es[n]);
    }
  }

  /** The instant of the latest command. */
  function LastCommand(es: seq<Event>): Option<int> {
    if es == [] then None
    else if es[|es| - 1].Command? then Some(es[|es| - 1].now)
    else LastCommand(es[..|es| - 1])
  }

  lemma {:induction false} LastCmdFollows(es: seq<Event>)
    ensures Run(CENTERED, es).mount.lastCmd == LastCommand(es)
  {
    if es != [] {
      LastCmdFollows(es[..|es| - 1]);
    }
  }

  /** The loop switches itself off only more than 350 ms after the latest command of the history,
      one that landed in the middle of the very same step included. */
  lemma DeactivatesOnlyWhenQuiet(es: seq<Event>, e: Event)
    requires Run(CENTERED, es).mount.active && !Step(Run(CENTERED, es), e).mount.active
    ensures e.Store? && Run(CENTERED, es).pc.Aimed? && LastCommand(es).Some?
    ensures Run(CENTERED, es).pc.now - LastCommand(es).value > 350_000_000
  {
    LastCmdFollows(es);
  }

  // ---------- the quiet loop recentres and stops ----------

  /** Whole steps at the given instants, with no command between them. */
  function Drive(m: Mount, nows: seq<int>): Mount
    decreases |nows|
  {
    if nows == [] then m
    else Drive(if m.active then WriteBack(m, nows[0], Aim(m, nows[0])) else m, nows[1..])
  }

  /** n steps of s degrees reach from x to centre. */
  predicate Covers(n: nat, s: real, x: real) {
    n as real * s >= Abs(x)
  }

  function InSeconds(d: int): real {
    d as real / 1_000_000_000.0
  }

  /** The budget: this many steps, each gap or longer, cover the way to centre on either axis. */
  predicate Enough(m: Mount, gap: int, panSteps: nat, tiltSteps: nat) {
    Covers(panSteps, 220.0 * InSeconds(gap), m.cur.pan) && Covers(tiltSteps, 140.0 * InSeconds(gap), m.cur.tilt)
  }

  /** At least gap has passed since the last write-back; before the first one the loop period counts. */
  predicate Spaced(m: Mount, now: int, gap: int) {
    match m.lastUpdate
    case None => Seconds(gap) <= LOOP_PERIOD
    case Some(u) => now - u >= gap
  }

  lemma DtAtLeast(m: Mount, now: int, gap: int)
    requires 0 < gap <= MAX_DT && Spaced(m, now, gap)
    ensures Dt(m.lastUpdate, now) >= Seconds(gap) > 0.0
  {
  }

  lemma QuietStep(m: Mount, now: int, gap: int, panSteps: nat, tiltSteps: nat) returns (p: nat, t: nat)
    requires MountOk(m) && 0 < gap <= MAX_DT && Spaced(m, now, gap) && Quiet(m.lastCmd, now)
    requires Enough(m, gap, panSteps, tiltSteps)
    ensures Covers(p, PanStep(Seconds(gap)), Aim(m, now).pan) && Covers(t, TiltStep(Seconds(gap)), Aim(m, now).tilt)
    ensures (p == 0 ==> Aim(m, now).pan == 0.0) && (t == 0 ==> Aim(m, now).tilt == 0.0)
    ensures p < (if panSteps == 0 then 1 else panSteps) && t < (if tiltSteps == 0 then 1 else tiltSteps)
  {
    var dt, g := Dt(m.lastUpdate, now), Seconds(gap);
    DtAtLeast(m, now, gap);
    p := CentreStep(m.cur.pan, PanStep(dt), PanStep(g), panSteps);
    t := CentreStep(m.cur.tilt, TiltStep(dt), TiltStep(g), tiltSteps);
  }

  /** Once the UI has been quiet for more than 350 ms, the loop reaches centre and switches itself
      off after as many steps as cover the way there, whatever the target was. */
  lemma {:induction false} QuietCentres(m: Mount, nows: seq<int>, gap: int, panSteps: nat, tiltSteps: nat)
    requires MountOk(m) && m.active && 0 < gap <= 250_000_000 && Enough(m, gap, panSteps, tiltSteps)
    requires |nows| > 0 && |nows| >= panSteps && |nows| >= tiltSteps
    requires Spaced(m, nows[0], gap) && forall i | 0 < i < |nows| :: nows[i] - nows[i - 1] >= gap
    requires m.lastCmd.Some? && forall i | 0 <= i < |nows| :: nows[i] - m.lastCmd.value > 350_000_000
    ensures !Drive(m, nows).active && Drive(m, nows).cur == Pose(0.0, 0.0)
    decreases |nows|
  {
    var next := WriteBack(m, nows[0], Aim(m, nows[0]));
    var p, t := QuietStep(m, nows[0], gap, panSteps, tiltSteps);
    AimInRange(m, nows[0]);
    if next.active {
      QuietCentres(next, nows[1..], gap, p, t);
    } else {
      StaysOff(next, nows[1..]);
    }
  }

  lemma {:induction false} StaysOff(m: Mount, nows: seq<int>)
    requires !m.active
    ensures Drive(m, nows) == m
    decreases |nows|
  {
    if nows != [] {
      StaysOff(m, nows[1..]);
    }
  }

  /** One step towards centre uses up one of the n minimal steps that are enough. */
  lemma CentreStep(cur: real, step: real, s: real, n: nat) returns (left: nat)
    requires step >= s > 0.0 && Covers(n, s, cur) && Settled(cur)
    ensures Covers(left, s, AxisStep(cur, 0.0, step)) && left < (if n == 0 then 1 else n)
    ensures left == 0 ==> AxisStep(cur, 0.0, step) == 0.0
  {
    if n == 0 {
      left := 0;
    } else {
      left := n - 1;
      assert (n - 1) as real * s == n as real * s - s;
    }
  }

  // ---------- the live loop reaches what was asked for ----------

  /** One step of a live loop: the UI may repeat its command first, at cmd, then the loop steps at now. */
  datatype Beat = Beat(cmd: Option<int>, now: int)

  function Hear(m: Mount, pan: real, tilt: real, beat: Beat): Mount {
    if beat.cmd.Some? then OnCommand(m, beat.cmd.value, pan, tilt) else m
  }

  /** Whole steps, with the same command repeated where the beats say so. */
  function Follow(m: Mount, pan: real, tilt: real, beats: seq<Beat>): Mount
    decreases |beats|
  {
    if beats == [] then m
    else
      var h := Hear(m, pan, tilt, beats[0]);
      Follow(if h.active then WriteBack(h, beats[0].now, Aim(h, beats[0].now)) else h, pan, tilt, beats[1..])
  }

  /** The instant of the latest command before step i; the one that set the target counts. */
  function Latest(cmd: int, beats: seq<Beat>, i: nat): int
    requires i < |beats|
  {
    if beats[i].cmd.Some? then beats[i].cmd.value else if i == 0 then cmd else Latest(cmd, beats, i - 1)
  }

  /** Every step is at least gap after the one before, and at most 350 ms after the latest command. */
  predicate Live(m: Mount, beats: seq<Beat>, gap: int) {
    && m.lastCmd.Some?
    && (forall i: nat | i < |beats| :: beats[i].now - Latest(m.lastCmd.value, beats, i) <= 350_000_000)
    && (beats != [] ==> Spaced(m, beats[0].now, gap))
    && (forall i: nat | 0 < i < |beats| :: beats[i].now - beats[i - 1].now >= gap)
  }

  lemma {:induction false} LatestAfterFirst(cmd: int, beats: seq<Beat>, i: nat)
    requires i + 1 < |beats|
    ensures var c := if beats[0].cmd.Some? then beats[0].cmd.value else cmd;
            Latest(c, beats[1..], i) == Latest(cmd, beats, i + 1)
  {
    if beats[i + 1].cmd.None? && i > 0 {
      LatestAfterFirst(cmd, beats, i - 1);
    }
  }

  /** What one live step does: each axis takes one step towards the commanded target, of the elapsed
      time at its rate, and the loop stays live for the rest. */
  lemma LiveStep(m: Mount, pan: real, tilt: real, beats: seq<Beat>, gap: int) returns (next: Mount, dt: real)
    requires m.active && m.target == CommandPose(pan, tilt) && 0 < gap <= MAX_DT && beats != [] && Live(m, beats, gap)
    ensures next == WriteBack(Hear(m, pan, tilt, beats[0]), beats[0].now,
                              Aim(Hear(m, pan, tilt, beats[0]), beats[0].now))
    ensures next.active && next.target == m.target && Live(next, beats[1..], gap)
    ensures dt >= InSeconds(gap)
    ensures next.cur == Pose(AxisStep(m.cur.pan, m.target.pan, 220.0 * dt),
                             AxisStep(m.cur.tilt, m.target.tilt, 140.0 * dt))
  {
    var h := Hear(m, pan, tilt, beats[0]);
    next, dt := WriteBack(h, beats[0].now, Aim(h, beats[0].now)), Dt(m.lastUpdate, beats[0].now);
    DtAtLeast(m, beats[0].now, gap);
    assert beats[0].now - Latest(m.lastCmd.value, beats, 0) <= 350_000_000;
    assert !Quiet(h.lastCmd, beats[0].now);
    var rest := beats[1..];
    forall i: nat | i < |rest|
      ensures rest[i].now - Latest(next.lastCmd.value, rest, i) <= 350_000_000
    {
      LatestAfterFirst(m.lastCmd.value, beats, i);
      var k := i + 1;
      assert rest[i] == beats[k] && beats[k].now - Latest(m.lastCmd.value, beats, k) <= 350_000_000;
    }
  }

  /** A live loop moves each axis as a run of steps towards the target. */
  lemma {:induction false} LiveIsAxisRun(m: Mount, pan: real, tilt: real, beats: seq<Beat>, gap: int)
    returns (pans: seq<real>, tilts: seq<real>)
    requires m.active && m.target == CommandPose(pan, tilt) && 0 < gap <= MAX_DT && Live(m, beats, gap)
    ensures |pans| == |tilts| == |beats|
    ensures forall i | 0 <= i < |beats| :: pans[i] >= 220.0 * InSeconds(gap) && tilts[i] >= 140.0 * InSeconds(gap)
    ensures Follow(m, pan, tilt, beats).cur ==
            Pose(AxisRun(m.cur.pan, m.target.pan, pans), AxisRun(m.cur.tilt, m.target.tilt, tilts))
    decreases |beats|
  {
    pans, tilts := [], [];
    if beats != [] {
      var next, dt := LiveStep(m, pan, tilt, beats, gap);
      pans, tilts := LiveIsAxisRun(next, pan, tilt, beats[1..], gap);
      assert ([220.0 * dt] + pans)[1..] == pans && ([140.0 * dt] + tilts)[1..] == tilts;
      pans, tilts := [220.0 * dt] + pans, [140.0 * dt] + tilts;
    }
  }

  lemma AsksIsTarget(pan: real, tilt: real, p: real, t: real)
    requires Asks(pan, 90.0, 180.0, p) && Asks(tilt, 45.0, 90.0, t)
    ensures CommandPose(pan, tilt) == Pose(p, t)
  {
  }

  /** The live loop reaches the commanded pose: after a command, while every step comes at most
      350 ms after it or a repetition of it, steps no shorter than gap, with at least half a degree
      to go in that time at 220 degrees a second of pan and 140 of tilt, bring both axes to what
      the command asks for (centre within half a degree of it) in one step more than it takes to
      cover the way. */
  lemma CommandIsReached(m0: Mount, at: int, pan: real, tilt: real, beats: seq<Beat>, gap: int,
                         panSteps: nat, tiltSteps: nat, p: real, t: real)
    requires MountOk(m0) && Asks(pan, 90.0, 180.0, p) && Asks(tilt, 45.0, 90.0, t)
    requires 0 < gap <= 250_000_000 && Live(OnCommand(m0, at, pan, tilt), beats, gap)
    requires 220.0 * InSeconds(gap) >= 0.5 && 140.0 * InSeconds(gap) >= 0.5
    requires Covers(panSteps, 220.0 * InSeconds(gap), p - m0.cur.pan)
    requires Covers(tiltSteps, 140.0 * InSeconds(gap), t - m0.cur.tilt)
    requires |beats| > panSteps && |beats| > tiltSteps
    ensures Follow(OnCommand(m0, at, pan, tilt), pan, tilt, beats).cur ==
            Pose(if -0.5 < p < 0.5 then 0.0 else p, if -0.5 < t < 0.5 then 0.0 else t)
  {
    var m := OnCommand(m0, at, pan, tilt);
    AsksIsTarget(pan, tilt, p, t);
    var pans, tilts := LiveIsAxisRun(m, pan, tilt, beats, gap);
    RunsReach(m, pans, tilts, 220.0 * InSeconds(gap), 140.0 * InSeconds(gap), panSteps, tiltSteps);
  }

  lemma RunsReach(m: Mount, pans: seq<real>, tilts: seq<real>, ps: real, ts: real, panSteps: nat, tiltSteps: nat)
    requires Settled(m.cur.pan) && Settled(m.cur.tilt) && ps >= 0.5 && ts >= 0.5
    requires forall i | 0 <= i < |pans| :: pans[i] >= ps
    requires forall i | 0 <= i < |tilts| :: tilts[i] >= ts
    requires Covers(panSteps, ps, m.target.pan - m.cur.pan) && Covers(tiltSteps, ts, m.target.tilt - m.cur.tilt)
    requires |pans| > panSteps && |tilts| > tiltSteps
    ensures AxisRun(m.cur.pan, m.target.pan, pans) == if -0.5 < m.target.pan < 0.5 then 0.0 else m.target.pan
    ensures AxisRun(m.cur.tilt, m.target.tilt, tilts) == if -0.5 < m.target.tilt < 0.5 then 0.0 else m.target.tilt
  {
    AxisConverges(m.cur.pan, m.target.pan, ps, pans, panSteps);
    AxisConverges(m.cur.tilt, m.target.tilt, ts, tilts, tiltSteps);
  }

  /** The rates themselves: while the target is further away than that, a live step turns the mount
      by exactly 220 degrees of pan and 140 of tilt per second since the last one, a quarter second
      at most, by 11 and 7 degrees the first time, and not at all if the clock went back; the next
      one counts from it. */
  lemma LiveRate(m: Mount, now: int)
    requires m.lastCmd.Some? ==> now - m.lastCmd.value <= 350_000_000
    requires m.cur.pan >= 0.5 && m.target.pan >= m.cur.pan + 55.0
    requires m.cur.tilt <= -0.5 && m.target.tilt <= m.cur.tilt - 35.0
    ensures m.lastUpdate.None? ==> Aim(m, now) == Pose(m.cur.pan + 11.0, m.cur.tilt - 7.0)
    ensures m.lastUpdate.Some? && 0 <= now - m.lastUpdate.value <= 250_000_000 ==>
              var s := InSeconds(now - m.lastUpdate.value);
              Aim(m, now) == Pose(m.cur.pan + 220.0 * s, m.cur.tilt - 140.0 * s)
    ensures m.lastUpdate.Some? && now - m.lastUpdate.value > 250_000_000 ==>
              Aim(m, now) == Pose(m.cur.pan + 55.0, m.cur.tilt - 35.0)
    ensures m.lastUpdate.Some? && now < m.lastUpdate.value ==> Aim(m, now) == m.cur
    ensures var next := WriteBack(m, now, Aim(m, now));
            && next.lastUpdate == Some(now) && next.cur == Aim(m, now)
            && next.target == m.target && next.lastCmd == m.lastCmd
  {
  }
}
