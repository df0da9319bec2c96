/** The control session of pkg/stomp/session.go: five control streams, a policy stream, the
    100 ms dead-man ticker and the connection life cycle acting on one Session. */
module Control {
  import opened Common
  import opened Vehicle

  const GOTO_REISSUE := 1 * SECOND
  const DEFAULT_STALE := 450 * MILLISECOND
  const DEFAULT_REISSUE := 500 * MILLISECOND
  const ARRIVAL_METERS := 2.0

  datatype Kind = Attitude | Velocity | RcOverride | GotoGlobal | Gimbal

  // A control body: the numeric entries of the decoded JSON object.
  type Payload = map<string, real>

  datatype Target = Target(lat: real, lon: real, alt: real)

  function Entry(data: Payload, key: string): real {
    if key in data then data[key] else 0.0
  }

  /** The coordinates of a GOTO body; a missing entry reads as 0. */
  function TargetOf(data: Payload): Target {
    Target(Entry(data, "lat"), Entry(data, "lon"), Entry(data, "alt"))
  }

  /** The body the keep-alive builds for a stored target. */
  function TargetBody(t: Target): Payload {
    map["lat" := t.lat, "lon" := t.lon, "alt" := t.alt]
  }

  lemma TargetRoundTrip(t: Target)
    ensures TargetOf(TargetBody(t)) == t
  {
    assert "lat"[0] != "alt"[0] && "lat"[1] != "lon"[1] && "lon"[0] != "alt"[0];
  }

  // ---------- gates ----------

  datatype Gate = Gate(allowControl: bool, allowGoto: bool, allowRcOverride: bool, allowAircraft: bool)

  datatype Config = Config(
    allowControl: bool, allowGoto: Option<bool>, allowRcOverride: Option<bool>, allowAircraft: bool,
    controlTimeoutMs: int, reissueStopMs: int, throttleStopPwm: int, steeringStopPwm: int,
    hasMavlink: bool, outSysID: nat, maxStatus: nat)
  {
    /** GOTO is on unless switched off; RC override is off unless switched on. */
    function LocalGate(): Gate {
      Gate(allowControl, allowGoto.None? || allowGoto.value,
           allowRcOverride.Some? && allowRcOverride.value, allowAircraft)
    }

    function StaleAfter(): int {
      var d := Wrap64(controlTimeoutMs * MILLISECOND);
      if d <= 0 then DEFAULT_STALE else d
    }

    function ReissueEvery(): int {
      var d := Wrap64(reissueStopMs * MILLISECOND);
      if d <= 0 then DEFAULT_REISSUE else d
    }
  }

  function EffectiveGate(local: Gate, policy: Option<Gate>, aircraft: bool): Gate {
    var g := match policy
      case None => local
      case Some(p) => Gate(local.allowControl && p.allowControl, local.allowGoto && p.allowGoto,
                           local.allowRcOverride && p.allowRcOverride, local.allowAircraft && p.allowAircraft);
    if aircraft then g.(allowControl := g.allowControl && g.allowAircraft) else g
  }

  /** Everything a allows, b allows too. */
  predicate Below(a: Gate, b: Gate) {
    && (a.allowControl ==> b.allowControl) && (a.allowGoto ==> b.allowGoto)
    && (a.allowRcOverride ==> b.allowRcOverride) && (a.allowAircraft ==> b.allowAircraft)
  }

  predicate PolicyBelow(a: Option<Gate>, b: Option<Gate>) {
    b.None? || (a.Some? && Below(a.value, b.value))
  }

  /** Policy and config can only restrict: the effective gate is the greatest gate below both
      that also keeps an aircraft without aircraft permission uncontrolled. */
  lemma GateIsGreatestLowerBound(local: Gate, policy: Option<Gate>, aircraft: bool, g: Gate)
    ensures var eff := EffectiveGate(local, policy, aircraft);
            Below(g, eff) <==>
              && Below(g, local) && (policy.Some? ==> Below(g, policy.value))
              && (aircraft && g.allowControl ==> eff.allowAircraft)
  {
  }

  lemma GateIsMonotone(l0: Gate, l1: Gate, p0: Option<Gate>, p1: Option<Gate>, aircraft: bool)
    requires Below(l0, l1) && PolicyBelow(p0, p1)
    ensures Below(EffectiveGate(l0, p0, aircraft), EffectiveGate(l1, p1, aircraft))
    ensures Below(EffectiveGate(l0, p0, true), EffectiveGate(l0, p0, aircraft))
  {
  }

  predicate KindAllowed(kind: Kind, eff: Gate) {
    match kind
    case RcOverride => eff.allowRcOverride
    case GotoGlobal => eff.allowGoto
    case _ => true
  }

  datatype Reason =
    | MavlinkIneligible | AircraftNotAllowed | AllowControlFalse | RcOverrideNotAllowed | GotoNotAllowed
    | UnknownReason

  function DenyReason(kind: Kind, eligibleVehicle: bool, aircraft: bool, eff: Gate): Reason {
    if !eligibleVehicle then MavlinkIneligible
    else if !eff.allowControl then (if aircraft && !eff.allowAircraft then AircraftNotAllowed else AllowControlFalse)
    else if kind == RcOverride && !eff.allowRcOverride then RcOverrideNotAllowed
    else if kind == GotoGlobal && !eff.allowGoto then GotoNotAllowed
    else UnknownReason
  }

  // ---------- state, events, outputs ----------

  /** The fields guarded by ctrlMu. */
  datatype Ctl = Ctl(lastAt: Option<int>, lastKind: Option<Kind>, failsafeOn: bool,
                     gotoActive: bool, goto: Target, gotoLastSent: Option<int>)

  // The dead-man loop runs while a connection is up; lastReissue is its local variable.
  datatype Loop = Stopped | Running(lastReissue: Option<int>)

  datatype Sys = Sys(ctl: Ctl, policy: Option<Gate>, link: Link, loop: Loop)

  const BOOT_CTL := Ctl(None, None, false, false, Target(0.0, 0.0, 0.0), None)
  const BOOT := Sys(BOOT_CTL, None, BOOT_LINK, Stopped)

  datatype Gps = Gps(lat: real, lon: real, sats: int)

  datatype Event =
    | FrameIn(f: Frame)
    | PolicyIn(p: Gate)
    | ControlIn(kind: Kind, data: Payload)
    | Tick(gps: Gps, dist: real)       // dist: great-circle distance from gps to the stored target
    | Connect
    | Disconnect

  datatype Timed = At(now: int, ev: Event)

  datatype StopForm = RcStop(throttle: int, steering: int) | VelocityStop | AttitudeStop

  // Calls the session makes on the MAVLink connection.
  datatype Output = Apply(kind: Kind, data: Payload) | Stop(form: StopForm)

  function ClampPwm(v: int): int {
    if v < 1000 then 1000 else if v > 2000 then 2000 else v
  }

  /** applyControlFailsafe: the stop that fits the last applied kind; the configured PWM values
      are truncated to 16 bits and clamped on the way out. */
  function FormOf(cfg: Config, kind: Option<Kind>): StopForm {
    match kind
    case Some(Velocity) => VelocityStop
    case Some(GotoGlobal) => VelocityStop
    case Some(Attitude) => AttitudeStop
    case _ => RcStop(ClampPwm(cfg.throttleStopPwm % 0x1_0000), ClampPwm(cfg.steeringStopPwm % 0x1_0000))
  }

  // ---------- what those settings mean ----------

  /** v is what comes nearest to t within 1000..2000. */
  predicate NearestPwm(v: int, t: int) {
    1000 <= v <= 2000 && (t < v ==> v == 1000) && (v < t ==> v == 2000)
  }

  /** form halts a vehicle whose last control was of this kind: zero velocity after a velocity or
      GOTO setpoint, zero thrust after an attitude, and otherwise the two configured neutral values,
      throttle on the throttle channel and steering on the steering channel, cut to 16 bits. */
  predicate Neutralizes(cfg: Config, kind: Option<Kind>, form: StopForm) {
    match form
    case VelocityStop => kind == Some(Velocity) || kind == Some(GotoGlobal)
    case AttitudeStop => kind == Some(Attitude)
    case RcStop(throttle, steering) =>
      && kind in {None, Some(RcOverride), Some(Gimbal)}
      && NearestPwm(throttle, cfg.throttleStopPwm % 0x1_0000)
      && NearestPwm(steering, cfg.steeringStopPwm % 0x1_0000)
  }

  /** There is exactly one such stop; configured values that lie within 1000..2000 are sent as they are. */
  lemma FormNeutralizes(cfg: Config, kind: Option<Kind>)
    ensures forall form :: Neutralizes(cfg, kind, form) <==> form == FormOf(cfg, kind)
    ensures kind in {None, Some(RcOverride), Some(Gimbal)} && 1000 <= cfg.throttleStopPwm <= 2000
              && 1000 <= cfg.steeringStopPwm <= 2000 ==>
              FormOf(cfg, kind) == RcStop(cfg.throttleStopPwm, cfg.steeringStopPwm)
  {
  }

  /** The two periods in nanoseconds: the configured milliseconds, or 450 and 500 of them where
      nothing positive is configured, as long as 64 bits hold the product. */
  lemma PeriodsAreMilliseconds(cfg: Config)
    ensures 0 < cfg.controlTimeoutMs <= 9_223_372_036_854 ==> cfg.StaleAfter() == cfg.controlTimeoutMs * 1_000_000
    ensures -9_223_372_036_854 <= cfg.controlTimeoutMs <= 0 ==> cfg.StaleAfter() == 450_000_000
    ensures 0 < cfg.reissueStopMs <= 9_223_372_036_854 ==> cfg.ReissueEvery() == cfg.reissueStopMs * 1_000_000
    ensures -9_223_372_036_854 <= cfg.reissueStopMs <= 0 ==> cfg.ReissueEvery() == 500_000_000
  {
    WrapRange(cfg.controlTimeoutMs * MILLISECOND);
    WrapRange(cfg.reissueStopMs * MILLISECOND);
  }

  predicate Arrived(gps: Gps, dist: real) {
    (gps.lat != 0.0 || gps.lon != 0.0) && gps.sats > 0 && 0.0 <= dist <= ARRIVAL_METERS
  }

  // ---------- the step ----------

  /** The gates of a control message, from what was read for each of them. */
  predicate Admitted(cfg: Config, eligible: bool, aircraft: bool, policy: Option<Gate>, kind: Kind) {
    var eff := EffectiveGate(cfg.LocalGate(), policy, aircraft);
    eligible && eff.allowControl && KindAllowed(kind, eff)
  }

  predicate CanObey(cfg: Config, link: Link) {
    cfg.hasMavlink && Eligible(link.view)
  }

  predicate IsAircraft(cfg: Config, link: Link) {
    cfg.hasMavlink && AircraftLike(link.view)
  }

  /** The decision taken when a control message is received, all gates read at one instant. */
  predicate Accepts(cfg: Config, s: Sys, kind: Kind) {
    Admitted(cfg, CanObey(cfg, s.link), IsAircraft(cfg, s.link), s.policy, kind)
  }

  /** First locked section of a control handler. */
  function NoteControl(c: Ctl, now: int, kind: Kind, data: Payload): Ctl {
    var c' := c.(lastAt := Some(now), lastKind := Some(kind), failsafeOn := false);
    if kind == GotoGlobal then c'.(gotoActive := true, goto := TargetOf(data), gotoLastSent := None)
    else c'.(gotoActive := false)
  }

  /** Second locked section: a GOTO was just sent. */
  function MarkSent(c: Ctl, now: int, kind: Kind): Ctl {
    if kind == GotoGlobal then c.(gotoLastSent := Some(now)) else c
  }

  function OnControl(cfg: Config, s: Sys, now: int, kind: Kind, data: Payload): (Sys, seq<Output>) {
    if Accepts(cfg, s, kind) then
      (s.(ctl := MarkSent(NoteControl(s.ctl, now, kind, data), now, kind)), [Apply(kind, data)])
    else (s, [])
  }

  /** The tick looks only at cfg.AllowControl and the vehicle, not at the backend policy. */
  predicate TickEnabled(cfg: Config, s: Sys) {
    s.loop.Running? && cfg.hasMavlink && cfg.allowControl && Eligible(s.link.view)
  }

  function GotoTick(c: Ctl, now: int, gps: Gps, dist: real): (Ctl, seq<Output>) {
    var due := Elapsed(c.gotoLastSent, now, GOTO_REISSUE);
    var c1 := if due then c.(gotoLastSent := Some(now), lastAt := Some(now), lastKind := Some(GotoGlobal)) else c;
    (if Arrived(gps, dist) then c1.(gotoActive := false) else c1,
     if due then [Apply(GotoGlobal, TargetBody(c.goto))] else [])
  }

  predicate StopDue(cfg: Config, c: Ctl, lastReissue: Option<int>, now: int) {
    && c.lastAt.Some? && now - c.lastAt.value >= cfg.StaleAfter()
    && (!c.failsafeOn || Elapsed(lastReissue, now, cfg.ReissueEvery()))
  }

  function OnTick(cfg: Config, s: Sys, now: int, gps: Gps, dist: real): (Sys, seq<Output>) {
    if !TickEnabled(cfg, s) then (s, [])
    else if s.ctl.gotoActive then
      var (c, out) := GotoTick(s.ctl, now, gps, dist);
      (s.(ctl := c), out)
    else if StopDue(cfg, s.ctl, s.loop.lastReissue, now) then
      (s.(ctl := s.ctl.(failsafeOn := true), loop := Running(Some(now))), [Stop(FormOf(cfg, s.ctl.lastKind))])
    else (s, [])
  }

  /** safeCloseStop stops the vehicle, then the dead-man loop stops it once more on its way out. */
  function OnDisconnect(cfg: Config, s: Sys): (Sys, seq<Output>) {
    if s.loop.Stopped? then (s, [])
    else
      var stop := Stop(FormOf(cfg, s.ctl.lastKind));
      (s.(loop := Stopped), if cfg.hasMavlink then [stop, stop] else [])
  }

  function Step(cfg: Config, s: Sys, e: Timed): (Sys, seq<Output>) {
    match e.ev
    case FrameIn(f) => (s.(link := Receive(cfg.outSysID, cfg.maxStatus, s.link, f)), [])
    case PolicyIn(p) => (s.(policy := Some(p)), [])
    case ControlIn(kind, data) => OnControl(cfg, s, e.now, kind, data)
    case Tick(gps, dist) => OnTick(cfg, s, e.now, gps, dist)
    case Connect => (if s.loop.Stopped? then s.(loop := Running(None)) else s, [])
    case Disconnect => OnDisconnect(cfg, s)
  }

  // ---------- the session object ----------

  class Session {
    const cfg: Config
    const mavlink: MavlinkConnection?
    var lastCtrlAt: Option<int>
    var lastCtrlKind: Option<Kind>
    var failsafeOn: bool
    var gotoActive: bool
    var gotoLat: real
    var gotoLon: real
    var gotoAltM: real
    var gotoLastSent: Option<int>
    var policySeen: bool
    var policy: Gate
    var loop: Loop
    var sent: seq<Output>   // every call made on the MAVLink connection so far

    ghost predicate Valid()
    {
      && (cfg.hasMavlink <==> mavlink != null)
      && (mavlink != null ==> mavlink.outSysID == cfg.outSysID && mavlink.maxStatusLen == cfg.maxStatus)
    }

    ghost function AbsCtl(): Ctl
      reads this
    {
      Ctl(lastCtrlAt, lastCtrlKind, failsafeOn, gotoActive, Target(gotoLat, gotoLon, gotoAltM), gotoLastSent)
    }

    ghost function Abs(): Sys
      reads this, mavlink
    {
      Sys(AbsCtl(), if policySeen then Some(policy) else None,
          if mavlink == null then BOOT_LINK else mavlink.Abs(), loop)
    }

    constructor (c: Config, m: MavlinkConnection?)
      requires c.hasMavlink <==> m != null
      requires m != null ==> m.outSysID == c.outSysID && m.maxStatusLen == c.maxStatus && m.Abs() == BOOT_LINK
      ensures Valid() && cfg == c && mavlink == m && Abs() == BOOT && sent == []
    {
      cfg, mavlink := c, m;
      lastCtrlAt, lastCtrlKind, failsafeOn := None, None, false;
      gotoActive, gotoLat, gotoLon, gotoAltM, gotoLastSent := false, 0.0, 0.0, 0.0, None;
      policySeen, policy := false, Gate(false, false, false, false);
      loop, sent := Stopped, [];
    }

    method SetPolicy(p: Gate)
      requires Valid()
      modifies this
      ensures Valid() && sent == old(sent)
      ensures forall now :: Abs() == Step(cfg, old(Abs()), At(now, PolicyIn(p))).0
    {
      policy := p;
      policySeen := true;
    }

    method EffectiveGateNow(aircraft: bool) returns (eff: Gate)
      requires Valid()
      ensures eff == EffectiveGate(cfg.LocalGate(), Abs().policy, aircraft)
    {
      eff := cfg.LocalGate();
      if policySeen {
        eff := Gate(eff.allowControl && policy.allowControl, eff.allowGoto && policy.allowGoto,
                    eff.allowRcOverride && policy.allowRcOverride, eff.allowAircraft && policy.allowAircraft);
      }
      if aircraft {
        eff := eff.(allowControl := eff.allowControl && eff.allowAircraft);
      }
    }

    /** The gates a control message passes; reason is what the log would give for a refusal. */
    method Decide(kind: Kind) returns (eligible: bool, reason: Reason)
      requires Valid()
      ensures eligible <==> Accepts(cfg, Abs(), kind)
      ensures reason == UnknownReason <==> eligible
      ensures reason == MavlinkIneligible <==> !CanObey(cfg, Abs().link)
      ensures reason == AircraftNotAllowed ==>
                IsAircraft(cfg, Abs().link)
                && !(cfg.allowAircraft && (Abs().policy.Some? ==> Abs().policy.value.allowAircraft))
      ensures reason == RcOverrideNotAllowed ==>
                kind == RcOverride
                && !(cfg.allowRcOverride == Some(true) && (Abs().policy.Some? ==> Abs().policy.value.allowRcOverride))
      ensures reason == GotoNotAllowed ==>
                kind == GotoGlobal
                && !(cfg.allowGoto != Some(false) && (Abs().policy.Some? ==> Abs().policy.value.allowGoto))
    {
      var eligibleVehicle, aircraft := false, false;
      if mavlink != null {
        eligibleVehicle, aircraft := mavlink.SnapshotControlState();
      }
      var eff := EffectiveGateNow(aircraft);
      eligible := eligibleVehicle && eff.allowControl;
      match kind {
        case RcOverride => eligible := eligible && eff.allowRcOverride;
        case GotoGlobal => eligible := eligible && eff.allowGoto;
        case _ =>
      }
      reason := DenyReason(kind, eligibleVehicle, aircraft, eff);
    }

    method NoteAndApply(now: int, kind: Kind, data: Payload)
      requires Valid()
      modifies this
      ensures AbsCtl() == MarkSent(NoteControl(old(AbsCtl()), now, kind, data), now, kind)
      ensures sent == old(sent) + [Apply(kind, data)]
      ensures policySeen == old(policySeen) && policy == old(policy) && loop == old(loop)
    {
      lastCtrlAt, lastCtrlKind, failsafeOn := Some(now), Some(kind), false;
      if kind == GotoGlobal {
        gotoActive := true;
        gotoLat, gotoLon, gotoAltM := Entry(data, "lat"), Entry(data, "lon"), Entry(data, "alt");
        gotoLastSent := None;
      } else if gotoActive {
        gotoActive := false;
      }
      sent := sent + [Apply(kind, data)];
      if kind == GotoGlobal {
        gotoLastSent := Some(now);
      }
    }

    /** One message on a control stream. */
    method HandleControl(now: int, kind: Kind, data: Payload)
      requires Valid()
      modifies this
      ensures Valid()
      ensures Abs() == OnControl(cfg, old(Abs()), now, kind, data).0
      ensures sent == old(sent) + OnControl(cfg, old(Abs()), now, kind, data).1
    {
      var eligible, _ := Decide(kind);
      if !eligible || mavlink == null {
        return;
      }
      NoteAndApply(now, kind, data);
    }

    method ApplyControlFailsafe()
      requires Valid()
      modifies this`sent
      ensures sent == old(sent) + (if cfg.hasMavlink then [Stop(FormOf(cfg, lastCtrlKind))] else [])
      ensures forall o | o in sent[|old(sent)|..] :: o.Stop? && Neutralizes(cfg, lastCtrlKind, o.form)
    {
      FormNeutralizes(cfg, lastCtrlKind);
      if mavlink == null {
        return;
      }
      var rc := RcStop(ClampPwm(cfg.throttleStopPwm % 0x1_0000), ClampPwm(cfg.steeringStopPwm % 0x1_0000));
      var form := rc;
      match lastCtrlKind {
        case Some(Velocity) => form := VelocityStop;
        case Some(Attitude) => form := AttitudeStop;
        case Some(GotoGlobal) => form := VelocityStop;
        case _ => form := rc;
      }
      sent := sent + [Stop(form)];
    }

    /** One iteration of controlFailsafeLoop. */
    method FailsafeTick(now: int, gps: Gps, dist: real)
      requires Valid()
      modifies this
      ensures Valid()
      ensures Abs() == OnTick(cfg, old(Abs()), now, gps, dist).0
      ensures sent == old(sent) + OnTick(cfg, old(Abs()), now, gps, dist).1
      ensures forall o | o in sent[|old(sent)|..] && o.Stop? :: Neutralizes(cfg, old(lastCtrlKind), o.form)
      ensures old(gotoActive && loop.Running? && Eligible(Abs().link.view)) && cfg.hasMavlink && cfg.allowControl ==>
                (gotoActive <==> !((gps.lat != 0.0 || gps.lon != 0.0) && gps.sats > 0 && 0.0 <= dist <= 2.0))
    {
      if loop.Stopped? || mavlink == null {
        return;
      }
      var eligibleVehicle, _ := mavlink.SnapshotControlState();
      if !(cfg.allowControl && eligibleVehicle) {
        return;
      }
      if gotoActive {
        KeepGotoAlive(now, gps, dist);
        return;
      }
      if lastCtrlAt.None? {
        return;
      }
      if now - lastCtrlAt.value < cfg.StaleAfter() {
        return;
      }
      if !failsafeOn || Elapsed(loop.lastReissue, now, cfg.ReissueEvery()) {
        ApplyControlFailsafe();
        loop := Running(Some(now));
        failsafeOn := true;
      }
    }

    /** The GOTO branch of the iteration: re-issue at 1 Hz, then look for arrival. */
    method KeepGotoAlive(now: int, gps: Gps, dist: real)
      requires Valid() && gotoActive
      modifies this
      ensures (AbsCtl(), sent) == (GotoTick(old(AbsCtl()), now, gps, dist).0,
                                   old(sent) + GotoTick(old(AbsCtl()), now, gps, dist).1)
      ensures policySeen == old(policySeen) && policy == old(policy) && loop == old(loop)
    {
      assert sent + [] == sent;
      if Elapsed(gotoLastSent, now, GOTO_REISSUE) {
        sent := sent + [Apply(GotoGlobal, TargetBody(Target(gotoLat, gotoLon, gotoAltM)))];
        gotoLastSent, lastCtrlAt, lastCtrlKind := Some(now), Some(now), Some(GotoGlobal);
      }
      if (gps.lat != 0.0 || gps.lon != 0.0) && gps.sats > 0 {
        if dist >= 0.0 && dist <= ARRIVAL_METERS {
          gotoActive := false;
        }
      }
    }

    method StartLoop()
      requires Valid()
      modifies this
      ensures Valid() && sent == old(sent)
      ensures forall now :: Abs() == Step(cfg, old(Abs()), At(now, Connect)).0
    {
      if loop.Stopped? {
        loop := Running(None);
      }
    }

    method SafeCloseStop()
      requires Valid()
      modifies this
      ensures Valid()
      ensures Abs() == OnDisconnect(cfg, old(Abs())).0
      ensures sent == old(sent) + OnDisconnect(cfg, old(Abs())).1
      ensures forall o | o in sent[|old(sent)|..] :: o.Stop? && Neutralizes(cfg, lastCtrlKind, o.form)
    {
      if loop.Stopped? {
        return;
      }
      ApplyControlFailsafe();
      loop := Stopped;
      ApplyControlFailsafe();   // the loop's own exit
    }
  }
}
