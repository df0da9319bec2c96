/** The heartbeat-derived vehicle state kept by pkg/mavlink/mavlink.go: which autopilot the
    agent is locked to, what its last heartbeat said, and the status-text history. */
module Vehicle {
  // Numbers of the MAVLink common dialect (MAV_TYPE, MAV_AUTOPILOT, MAV_MODE_FLAG).
  const FIXED_WING := 1
  const GCS := 6
  const GROUND_ROVER := 10
  const SURFACE_BOAT := 11
  const ARDUPILOTMEGA := 3
  const SAFETY_ARMED := 128

  datatype Mode =
    | NoMode
    | Manual | Stabilize | Acro | AltHold | Auto | Guided | Loiter | Rtl | Circle | Land | Drift | Sport
    | PosHold | Brake | Throw | Learning | Steering | Hold | Initializing | Training | FbwA | FbwB
    | UnknownMode(code: nat)

  datatype Heartbeat = Heartbeat(autopilot: nat, vtype: nat, baseMode: nat, customMode: nat)
  datatype StatusMessage = StatusMessage(severity: nat, text: string, timestamp: int)
  datatype Message = HeartbeatMsg(hb: Heartbeat) | StatusText(status: StatusMessage) | OtherMsg
  datatype Frame = Frame(sys: nat, comp: nat, msg: Message)

  /** What a heartbeat says about the vehicle. */
  datatype View = View(armed: bool, vtype: nat, mode: Mode)

  const NOTHING_HEARD := View(false, 0, NoMode)

  // ---------- mode tables ----------

  function CopterMode(m: nat): Mode {
    match m
    case 0 => Stabilize
    case 1 => Acro
    case 2 => AltHold
    case 3 => Auto
    case 4 => Guided
    case 5 => Loiter
    case 6 => Rtl
    case 7 => Circle
    case 9 => Land
    case 11 => Drift
    case 13 => Sport
    case 16 => PosHold
    case 17 => Brake
    case 18 => Throw
    case _ => UnknownMode(m)
  }

  function RoverMode(m: nat): Mode {
    match m
    case 0 => Manual
    case 1 => Acro
    case 2 => Learning
    case 3 => Steering
    case 4 => Hold
    case 10 => Auto
    case 11 => Rtl
    case 15 => Guided
    case 16 => Initializing
    case _ => UnknownMode(m)
  }

  function PlaneMode(m: nat): Mode {
    match m
    case 0 => Manual
    case 1 => Circle
    case 2 => Stabilize
    case 3 => Training
    case 4 => Acro
    case 5 => FbwA
    case 6 => FbwB
    case 10 => Auto
    case 11 => Rtl
    case 12 => Loiter
    case 15 => Guided
    case 16 => Initializing
    case _ => UnknownMode(m)
  }

  predicate IsRoverLike(vtype: nat) {
    vtype == GROUND_ROVER || vtype == SURFACE_BOAT
  }

  /** Unknown vehicle types use the copter table. */
  function ModeName(customMode: nat, vtype: nat): Mode {
    if IsRoverLike(vtype) then RoverMode(customMode)
    else if vtype == FIXED_WING then PlaneMode(customMode)
    else CopterMode(customMode)
  }

  function Decode(hb: Heartbeat): View {
    View((hb.baseMode / SAFETY_ARMED) % 2 == 1, hb.vtype, ModeName(hb.customMode, hb.vtype))
  }

  /** SnapshotControlState / IsControlAllowed. */
  predicate Eligible(v: View) {
    (v.mode == Guided || v.mode == Steering || (IsRoverLike(v.vtype) && v.mode == Manual)) && v.armed
  }

  /** IsAircraftLike: everything that is not a rover or a boat. */
  predicate AircraftLike(v: View) {
    !IsRoverLike(v.vtype)
  }

  /** The same rule in raw heartbeat fields: armed, and in GUIDED, STEERING or MANUAL for a rover
      or boat, GUIDED for a plane, custom mode 4 for everything else. */
  predicate ReadyToObey(hb: Heartbeat) {
    && (hb.baseMode / 128) % 2 == 1
    && (if hb.vtype == 10 || hb.vtype == 11 then hb.customMode in {0, 3, 15}
        else if hb.vtype == 1 then hb.customMode == 15
        else hb.customMode == 4)
  }

  /** Within a vehicle family the decoded mode tells custom mode codes apart. */
  lemma ModesTellCodesApart(vtype: nat, a: nat, b: nat)
    ensures ModeName(a, vtype) == ModeName(b, vtype) <==> a == b
  {
  }

  lemma EligibleInRawFields(hb: Heartbeat)
    ensures Eligible(Decode(hb)) <==> ReadyToObey(hb)
  {
  }

  // ---------- link state ----------

  datatype Link = Link(sysID: nat, compID: nat, locked: bool, vehicleSysID: nat, vehicleCompID: nat,
                       view: View, firstSeen: bool, startupRequests: nat, status: seq<StatusMessage>)

  const BOOT_LINK := Link(0, 0, false, 0, 0, NOTHING_HEARD, false, 0, [])

  predicate LocksOn(hb: Heartbeat) {
    hb.autopilot == ARDUPILOTMEGA && hb.vtype != GCS
  }

  function AppendStatus(status: seq<StatusMessage>, m: StatusMessage, maxLen: nat): seq<StatusMessage> {
    var grown := status + [m];
    if |grown| > maxLen then grown[1..] else grown
  }

  function OnHeartbeat(outSys: nat, st: Link, hb: Heartbeat): Link {
    if st.sysID == outSys then st
    else
      var l := if !st.locked && LocksOn(hb)
               then st.(vehicleSysID := st.sysID, vehicleCompID := st.compID, locked := true)
               else st;
      if l.locked && l.sysID != l.vehicleSysID then l
      else l.(view := Decode(hb), firstSeen := true,
              startupRequests := if l.firstSeen then l.startupRequests else l.startupRequests + 1)
  }

  /** One frame through readMessages and handleMessage. */
  function Receive(outSys: nat, maxStatus: nat, st: Link, f: Frame): Link {
    var l := st.(sysID := f.sys, compID := f.comp);
    match f.msg
    case HeartbeatMsg(hb) => OnHeartbeat(outSys, l, hb)
    case StatusText(m) => l.(status := AppendStatus(l.status, m, maxStatus))
    case OtherMsg => l
  }

  /** The connection object itself, updated in place field by field. */
  class MavlinkConnection {
    const outSysID: nat
    const maxStatusLen: nat
    var sysID: nat
    var compID: nat
    var vehicleLocked: bool
    var vehicleSysID: nat
    var vehicleCompID: nat
    var armed: bool
    var vehicleType: nat
    var mode: Mode
    var firstHB: bool
    var startupRequests: nat
    var statusMessages: seq<StatusMessage>

    ghost function Abs(): Link
      reads this
    {
      Link(sysID, compID, vehicleLocked, vehicleSysID, vehicleCompID, View(armed, vehicleType, mode),
           firstHB, startupRequests, statusMessages)
    }

    constructor (outSys: nat, maxStatus: nat)
      ensures outSysID == outSys && maxStatusLen == maxStatus && Abs() == BOOT_LINK
    {
      outSysID, maxStatusLen := outSys, maxStatus;
      sysID, compID, vehicleLocked, vehicleSysID, vehicleCompID := 0, 0, false, 0, 0;
      armed, vehicleType, mode, firstHB, startupRequests, statusMessages := false, 0, NoMode, false, 0, [];
    }

    method HandleFrame(f: Frame)
      modifies this
      ensures Abs() == Receive(outSysID, maxStatusLen, old(Abs()), f)
    {
      sysID, compID := f.sys, f.comp;
      match f.msg
      case HeartbeatMsg(hb) => HandleHeartbeat(hb);
      case StatusText(m) =>
        statusMessages := statusMessages + [m];
        if |statusMessages| > maxStatusLen {
          statusMessages := statusMessages[1..];
        }
      case OtherMsg =>
    }

    method HandleHeartbeat(hb: Heartbeat)
      modifies this
      ensures Abs() == OnHeartbeat(outSysID, old(Abs()), hb)
    {
      if sysID == outSysID {
        return;
      }
      if !vehicleLocked {
        if hb.autopilot == ARDUPILOTMEGA && hb.vtype != GCS {
          vehicleSysID, vehicleCompID, vehicleLocked := sysID, compID, true;
        }
      }
      if vehicleLocked && sysID != vehicleSysID {
        return;
      }
      armed := (hb.baseMode / SAFETY_ARMED) % 2 != 0;
      vehicleType := hb.vtype;
      mode := ModeName(hb.customMode, vehicleType);
      if !firstHB {
        firstHB := true;
        startupRequests := startupRequests + 1;
      }
    }

    method SnapshotControlState() returns (eligible: bool, aircraft: bool)
      ensures eligible == Eligible(Abs().view) && aircraft == AircraftLike(Abs().view)
    {
      var allowedMode := mode == Guided || mode == Steering || (IsRoverLike(vehicleType) && mode == Manual);
      eligible := allowedMode && armed;
      aircraft := !(vehicleType == GROUND_ROVER || vehicleType == SURFACE_BOAT);
    }
  }

  // ---------- runs ----------

  function Run(outSys: nat, maxStatus: nat, fs: seq<Frame>): Link {
    if fs == [] then BOOT_LINK
    else Receive(outSys, maxStatus, Run(outSys, maxStatus, fs[..|fs| - 1]), fs[|fs| - 1])
  }

  /** Frame i is a heartbeat that did not loop back from ourselves. */
  predicate Foreign(outSys: nat, fs: seq<Frame>, i: nat) {
    i < |fs| && fs[i].msg.HeartbeatMsg? && fs[i].sys != outSys
  }

  /** An ArduPilot vehicle, in raw heartbeat fields: autopilot 3, and not a ground station, type 6. */
  predicate IsVehicle(hb: Heartbeat) {
    hb.autopilot == 3 && hb.vtype != 6
  }

  /** Frame i is the first heartbeat of an ArduPilot vehicle in the history. */
  ghost predicate IsLock(outSys: nat, fs: seq<Frame>, i: nat) {
    && Foreign(outSys, fs, i) && IsVehicle(fs[i].msg.hb)
    && forall j: nat | j < i && Foreign(outSys, fs, j) :: !IsVehicle(fs[j].msg.hb)
  }

  /** Frame i counts: nobody was locked before it, or it comes from the locked system. */
  ghost predicate Heard(outSys: nat, fs: seq<Frame>, i: nat) {
    && Foreign(outSys, fs, i)
    && forall k: nat | k < i && IsLock(outSys, fs, k) :: fs[i].sys == fs[k].sys
  }

  /** Frame i is the latest heartbeat that counts. */
  ghost predicate Current(outSys: nat, fs: seq<Frame>, i: nat) {
    && Heard(outSys, fs, i)
    && forall j: nat | i < j < |fs| :: !Heard(outSys, fs, j)
  }

  lemma PrefixSame(outSys: nat, fs: seq<Frame>, f: Frame, i: nat)
    requires i < |fs|
    ensures Foreign(outSys, fs + [f], i) <==> Foreign(outSys, fs, i)
    ensures IsLock(outSys, fs + [f], i) <==> IsLock(outSys, fs, i)
    ensures Heard(outSys, fs + [f], i) <==> Heard(outSys, fs, i)
  {
    assert forall j: nat | j <= i :: (fs + [f])[j] == fs[j];
    forall j: nat | j <= i
      ensures Foreign(outSys, fs + [f], j) <==> Foreign(outSys, fs, j)
      ensures IsLock(outSys, fs + [f], j) <==> IsLock(outSys, fs, j)
    {
    }
  }

  ghost predicate LockFaithful(outSys: nat, fs: seq<Frame>, st: Link) {
    && (st.locked <==> exists k: nat :: IsLock(outSys, fs, k))
    && (forall k: nat | IsLock(outSys, fs, k) ::
          st.vehicleSysID == fs[k].sys && st.vehicleCompID == fs[k].comp)
  }

  ghost predicate ViewFaithful(outSys: nat, fs: seq<Frame>, st: Link) {
    && (st.firstSeen <==> exists i: nat :: Heard(outSys, fs, i))
    && st.startupRequests == (if st.firstSeen then 1 else 0)
    && (forall i: nat | Current(outSys, fs, i) :: st.view == Decode(fs[i].msg.hb))
    && (!st.firstSeen ==> st.view == NOTHING_HEARD)
  }

  /** What the link state says about the whole frame history. */
  ghost predicate Faithful(outSys: nat, fs: seq<Frame>, st: Link) {
    LockFaithful(outSys, fs, st) && ViewFaithful(outSys, fs, st)
  }

  lemma LockStep(outSys: nat, maxStatus: nat, fs: seq<Frame>, f: Frame, st: Link)
    requires LockFaithful(outSys, fs, st)
    ensures LockFaithful(outSys, fs + [f], Receive(outSys, maxStatus, st, f))
  {
    var gs, n, st' := fs + [f], |fs|, Receive(outSys, maxStatus, st, f);
    forall i: nat | i < n
      ensures IsLock(outSys, gs, i) <==> IsLock(outSys, fs, i)
    {
      PrefixSame(outSys, fs, f, i);
    }
    assert gs[n] == f;
    NewLock(outSys, fs, f, st);
    if st.locked {
      var k: nat :| IsLock(outSys, fs, k);
      assert IsLock(outSys, gs, k);
    }
    forall k: nat | IsLock(outSys, gs, k)
      ensures st'.vehicleSysID == gs[k].sys && st'.vehicleCompID == gs[k].comp
    {
      if k < n {
        assert IsLock(outSys, fs, k);
      }
    }
  }

  lemma ViewStep(outSys: nat, maxStatus: nat, fs: seq<Frame>, f: Frame, st: Link)
    requires LockFaithful(outSys, fs, st) && ViewFaithful(outSys, fs, st)
    ensures ViewFaithful(outSys, fs + [f], Receive(outSys, maxStatus, st, f))
  {
    var gs, n, st' := fs + [f], |fs|, Receive(outSys, maxStatus, st, f);
    forall i: nat | i < n
      ensures Heard(outSys, gs, i) <==> Heard(outSys, fs, i)
    {
      PrefixSame(outSys, fs, f, i);
    }
    assert gs[n] == f;
    NewHeard(outSys, fs, f, st);
    if st.firstSeen {
      var i: nat :| Heard(outSys, fs, i);
      assert Heard(outSys, gs, i);
    }
    forall i: nat | Current(outSys, gs, i)
      ensures st'.view == Decode(gs[i].msg.hb)
    {
      if i < n {
        assert !Heard(outSys, gs, n);
        assert Current(outSys, fs, i);
      }
    }
  }

  lemma HistoryStep(outSys: nat, maxStatus: nat, fs: seq<Frame>, f: Frame, st: Link)
    requires Faithful(outSys, fs, st)
    ensures Faithful(outSys, fs + [f], Receive(outSys, maxStatus, st, f))
  {
    LockStep(outSys, maxStatus, fs, f, st);
    ViewStep(outSys, maxStatus, fs, f, st);
  }

  /** The new frame is the lock exactly when Receive takes the locking branch. */
  lemma NewLock(outSys: nat, fs: seq<Frame>, f: Frame, st: Link)
    requires LockFaithful(outSys, fs, st)
    ensures IsLock(outSys, fs + [f], |fs|) <==>
            f.msg.HeartbeatMsg? && f.sys != outSys && IsVehicle(f.msg.hb) && !st.locked
  {
    var gs, n := fs + [f], |fs|;
    assert gs[n] == f;
    if st.locked {
      var k: nat :| IsLock(outSys, fs, k);
      PrefixSame(outSys, fs, f, k);
    } else if exists j: nat :: j < n && Foreign(outSys, gs, j) && IsVehicle(gs[j].msg.hb) {
      var j: nat :| j < n && Foreign(outSys, gs, j) && IsVehicle(gs[j].msg.hb);
      FirstLock(outSys, fs, j);
    }
  }

  /** The new frame counts exactly when Receive updates the view. */
  lemma NewHeard(outSys: nat, fs: seq<Frame>, f: Frame, st: Link)
    requires LockFaithful(outSys, fs, st)
    ensures Heard(outSys, fs + [f], |fs|) <==>
            f.msg.HeartbeatMsg? && f.sys != outSys && (st.locked ==> f.sys == st.vehicleSysID)
  {
    var gs, n := fs + [f], |fs|;
    assert gs[n] == f;
    forall k: nat | k < n
      ensures IsLock(outSys, gs, k) <==> IsLock(outSys, fs, k)
    {
      PrefixSame(outSys, fs, f, k);
    }
    if st.locked {
      var k: nat :| IsLock(outSys, fs, k);
      assert IsLock(outSys, gs, k) && gs[k] == fs[k];
    }
  }

  lemma {:induction false} FirstLock(outSys: nat, fs: seq<Frame>, j: nat)
    requires Foreign(outSys, fs, j) && IsVehicle(fs[j].msg.hb)
    ensures exists k: nat :: k <= j && IsLock(outSys, fs, k)
  {
    if i: nat :| i < j && Foreign(outSys, fs, i) && IsVehicle(fs[i].msg.hb) {
      FirstLock(outSys, fs, i);
      var k: nat :| k <= i && IsLock(outSys, fs, k);
      assert k <= j && IsLock(outSys, fs, k);
    } else {
      assert IsLock(outSys, fs, j);
    }
  }

  /** Vehicle lock over any frame sequence: the lock is the first autopilot heartbeat and never
      moves, mode/armed/type decode the latest heartbeat that counts, frames looping back from
      ourselves never matter, and the first-heartbeat requests go out once. */
  lemma {:induction false} LinkFollowsHistory(outSys: nat, maxStatus: nat, fs: seq<Frame>)
    ensures Faithful(outSys, fs, Run(outSys, maxStatus, fs))
  {
    if fs != [] {
      var n := |fs| - 1;
      LinkFollowsHistory(outSys, maxStatus, fs[..n]);
      OneFrameMore(outSys, maxStatus, fs[..n], fs[n]);
      assert fs[..n] + [fs[n]] == fs;
    }
  }

  lemma OneFrameMore(outSys: nat, maxStatus: nat, fs: seq<Frame>, f: Frame)
    requires Faithful(outSys, fs, Run(outSys, maxStatus, fs))
    ensures Faithful(outSys, fs + [f], Run(outSys, maxStatus, fs + [f]))
  {
    assert (fs + [f])[..|fs|] == fs;
    HistoryStep(outSys, maxStatus, fs, f, Run(outSys, maxStatus, fs));
  }

  lemma {:induction false} SomeCurrent(outSys: nat, fs: seq<Frame>, i: nat)
    requires Heard(outSys, fs, i)
    ensures exists j: nat :: Current(outSys, fs, j)
    decreases |fs| - i
  {
    if j: nat :| i < j < |fs| && Heard(outSys, fs, j) {
      SomeCurrent(outSys, fs, j);
    } else {
      assert Current(outSys, fs, i);
    }
  }

  /** The history's latest counting heartbeat shows a vehicle that may be controlled. */
  ghost predicate ReadyNow(outSys: nat, fs: seq<Frame>) {
    exists h: nat :: Current(outSys, fs, h) && ReadyToObey(fs[h].msg.hb)
  }

  /** It does not show a rover or a boat; nor does an empty history. */
  ghost predicate FlyingNow(outSys: nat, fs: seq<Frame>) {
    forall h: nat | Current(outSys, fs, h) :: fs[h].msg.hb.vtype !in {10, 11}
  }

  /** What the gates ask of the link, over the frame history alone. */
  lemma ViewInHistory(outSys: nat, maxStatus: nat, fs: seq<Frame>)
    ensures Eligible(Run(outSys, maxStatus, fs).view) <==> ReadyNow(outSys, fs)
    ensures AircraftLike(Run(outSys, maxStatus, fs).view) <==> FlyingNow(outSys, fs)
  {
    LinkFollowsHistory(outSys, maxStatus, fs);
    var st := Run(outSys, maxStatus, fs);
    if i: nat :| Heard(outSys, fs, i) {
      SomeCurrent(outSys, fs, i);
      var h: nat :| Current(outSys, fs, h);
      EligibleInRawFields(fs[h].msg.hb);
      OneCurrent(outSys, fs, h);
    }
  }

  lemma OneCurrent(outSys: nat, fs: seq<Frame>, h: nat)
    requires Current(outSys, fs, h)
    ensures forall j: nat | Current(outSys, fs, j) :: j == h
  {
  }

  /** What one more frame does to the lock, over any history: a heartbeat of type 6 or of another
      autopilot never sets it, nor does one of our own; the first heartbeat of a foreign ArduPilot
      vehicle always does, to its own system. */
  lemma LockIsSetIff(outSys: nat, maxStatus: nat, fs: seq<Frame>, f: Frame)
    requires !Run(outSys, maxStatus, fs).locked
    ensures var st := Run(outSys, maxStatus, fs + [f]);
            && (st.locked <==> f.msg.HeartbeatMsg? && f.sys != outSys && f.msg.hb.autopilot == 3 && f.msg.hb.vtype != 6)
            && (st.locked ==> st.vehicleSysID == f.sys && st.vehicleCompID == f.comp)
  {
    LinkFollowsHistory(outSys, maxStatus, fs + [f]);
    LinkFollowsHistory(outSys, maxStatus, fs);
    var st := Run(outSys, maxStatus, fs);
    assert (fs + [f])[..|fs|] == fs;
    NewLock(outSys, fs, f, st);
    forall k: nat | IsLock(outSys, fs + [f], k)
      ensures k == |fs|
    {
      if k < |fs| {
        PrefixSame(outSys, fs, f, k);
        assert false;
      }
    }
  }

  /** Once locked, more frames change neither the lock nor, unless they are heartbeats of the
      locked system, the view. */
  lemma {:induction false} LockIsForever(outSys: nat, maxStatus: nat, fs: seq<Frame>, more: seq<Frame>)
    requires Run(outSys, maxStatus, fs).locked
    ensures var a, b := Run(outSys, maxStatus, fs), Run(outSys, maxStatus, fs + more);
            && b.locked && b.vehicleSysID == a.vehicleSysID && b.vehicleCompID == a.vehicleCompID
            && (b.view == a.view || exists i: nat :: i < |more| && more[i].msg.HeartbeatMsg?
                                                     && more[i].sys == a.vehicleSysID && more[i].sys != outSys
                                                     && b.view == Decode(more[i].msg.hb))
  {
    if more == [] {
      assert fs + more == fs;
    } else {
      var n := |more| - 1;
      LockIsForever(outSys, maxStatus, fs, more[..n]);
      assert (fs + more)[..|fs + more| - 1] == fs + more[..n];
      var a, b, c := Run(outSys, maxStatus, fs), Run(outSys, maxStatus, fs + more[..n]), Run(outSys, maxStatus,
          fs + more);
      if c.view != b.view {
        assert more[n].msg.HeartbeatMsg? && c.view == Decode(more[n].msg.hb);
      } else if c.view != a.view {
        var i: nat :| i < |more[..n]| && more[..n][i].msg.HeartbeatMsg?
          && more[..n][i].sys == a.vehicleSysID && more[..n][i].sys != outSys && b.view == Decode(more[..n][i].msg.hb);
        assert more[i] == more[..n][i];
      }
    }
  }

  function Texts(fs: seq<Frame>): seq<StatusMessage> {
    if fs == [] then []
    else Texts(fs[..|fs| - 1]) + (if fs[|fs| - 1].msg.StatusText? then [fs[|fs| - 1].msg.status] else [])
  }

  /** statusMessages is always the last maxStatus texts of the history. */
  lemma {:induction false} StatusIsSuffix(outSys: nat, maxStatus: nat, fs: seq<Frame>)
    ensures var all, kept := Texts(fs), Run(outSys, maxStatus, fs).status;
            && |kept| == (if |all| < maxStatus then |all| else maxStatus)
            && kept == all[|all| - |kept|..]
  {
    if fs != [] {
      StatusIsSuffix(outSys, maxStatus, fs[..|fs| - 1]);
    }
  }
}
