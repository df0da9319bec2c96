/** What a command that goes out has passed, over every interleaving of lock sections. */
module SplitGates {
  import opened Common
  import opened Control
  import opened ControlSplit
  import opened SplitRuns
  import Vehicle

  // ---------- the reads of a message's gates ----------

  /** The three sections at which a message of this kind read its gates, in order, and what it
      read: the vehicle's eligibility, its type, and the policy. It was let through. */
  ghost predicate LetThrough(r: Run, q1: nat, q2: nat, q3: nat, kind: Kind, data: Payload)
  {
    && q1 < q2 < q3 < |r.evs|
    && r.evs[q1].sec == Receive(kind, data) && r.evs[q2].sec == Classify(kind)
    && r.evs[q3].sec == ControlSplit.Decide(kind)
    && Admitted(r.cfg, CanObey(r.cfg, r.S(q1).link), IsAircraft(r.cfg, r.S(q2).link), r.S(q3).policy, kind)
  }

  /** A message of this kind has been pending since it was received at q1. */
  ghost predicate PendingSince(r: Run, q1: nat, i: nat, kind: Kind)
    requires i <= |r.evs|
  {
    forall x: nat | q1 < x <= i :: kind in r.S(x).streams && !r.S(x).streams[kind].Sent?
  }

  lemma PendingIsUnsent(r: Run, q1: nat, i: nat, kind: Kind, x: nat)
    requires i <= |r.evs| && PendingSince(r, q1, i, kind) && q1 <= x < i
    ensures !r.Sends(x, kind)
  {
    StreamMoves(r, x, kind);
  }

  ghost predicate HasStage(r: Run, x: nat, kind: Kind, pc: CtlPc)
    requires x <= |r.evs|
  {
    kind in r.S(x).streams && r.S(x).streams[kind] == pc
  }

  /** Section q brought the message to stage pc, where it has been up to i. */
  ghost predicate StageSince(r: Run, q: nat, i: nat, kind: Kind, pc: CtlPc)
    requires i <= |r.evs|
  {
    && q < i && !HasStage(r, q, kind, pc) && HasStage(r, q + 1, kind, pc)
    && forall x: nat | q < x <= i :: HasStage(r, x, kind, pc)
  }

  lemma {:induction false} StageBegan(r: Run, i: nat, kind: Kind, pc: CtlPc) returns (q: nat)
    requires r.s0 == QUIET_BOOT && i <= |r.evs| && HasStage(r, i, kind, pc)
    ensures StageSince(r, q, i, kind, pc)
  {
    q := i - 1;
    if HasStage(r, q, kind, pc) {
      q := StageBegan(r, q, kind, pc);
    }
  }

  lemma PendingGrows(r: Run, q1: nat, q: nat, i: nat, kind: Kind, pc: CtlPc)
    requires i <= |r.evs| && q1 < q < i && PendingSince(r, q1, q, kind) && StageSince(r, q, i, kind, pc) && !pc.Sent?
    ensures PendingSince(r, q1, i, kind)
  {
    forall x: nat | q < x <= i
      ensures kind in r.S(x).streams && !r.S(x).streams[kind].Sent?
    {
      assert HasStage(r, x, kind, pc);
    }
  }

  lemma ProbedSince(r: Run, i: nat, kind: Kind, eligible: bool, data: Payload) returns (q1: nat)
    requires r.s0 == QUIET_BOOT && i <= |r.evs| && HasStage(r, i, kind, Probed(eligible, data))
    ensures q1 < i && r.evs[q1].sec == Receive(kind, data) && eligible == CanObey(r.cfg, r.S(q1).link)
    ensures PendingSince(r, q1, i, kind)
  {
    var pc := Probed(eligible, data);
    q1 := StageBegan(r, i, kind, pc);
    StreamMoves(r, q1, kind);
    forall x: nat | q1 < x <= i
      ensures kind in r.S(x).streams && !r.S(x).streams[kind].Sent?
    {
      assert HasStage(r, x, kind, pc);
    }
  }

  lemma TypedSince(r: Run, i: nat, kind: Kind, eligible: bool, aircraft: bool, data: Payload)
    returns (q1: nat, q2: nat)
    requires r.s0 == QUIET_BOOT && i <= |r.evs| && HasStage(r, i, kind, Typed(eligible, aircraft, data))
    ensures q1 < q2 < i && r.evs[q1].sec == Receive(kind, data) && r.evs[q2].sec == Classify(kind)
    ensures eligible == CanObey(r.cfg, r.S(q1).link) && aircraft == IsAircraft(r.cfg, r.S(q2).link)
    ensures PendingSince(r, q1, i, kind)
  {
    var pc := Typed(eligible, aircraft, data);
    q2 := StageBegan(r, i, kind, pc);
    StreamMoves(r, q2, kind);
    q1 := ProbedSince(r, q2, kind, eligible, data);
    PendingGrows(r, q1, q2, i, kind, pc);
  }

  lemma GatedSince(r: Run, i: nat, kind: Kind, t: int, data: Payload) returns (q1: nat, q2: nat, q3: nat)
    requires r.s0 == QUIET_BOOT && i <= |r.evs| && HasStage(r, i, kind, Gated(t, data))
    ensures q3 < i && LetThrough(r, q1, q2, q3, kind, data) && PendingSince(r, q1, i, kind)
  {
    q3 := StageBegan(r, i, kind, Gated(t, data));
    StreamMoves(r, q3, kind);
    var pc := r.S(q3).streams[kind];
    q1, q2 := TypedSince(r, q3, kind, pc.eligible, pc.aircraft, data);
    PendingGrows(r, q1, q3, i, kind, Gated(t, data));
  }

  /** A message about to be sent was let through, and has been pending since its receipt. */
  lemma LetThroughSince(r: Run, i: nat, kind: Kind, t: int, data: Payload) returns (q1: nat, q2: nat, q3: nat)
    requires r.s0 == QUIET_BOOT && i <= |r.evs| && HasStage(r, i, kind, Noted(t, data))
    ensures q3 < i && LetThrough(r, q1, q2, q3, kind, data) && PendingSince(r, q1, i, kind)
  {
    var q4 := StageBegan(r, i, kind, Noted(t, data));
    StreamMoves(r, q4, kind);
    q1, q2, q3 := GatedSince(r, q4, kind, t, data);
    PendingGrows(r, q1, q4, i, kind, Noted(t, data));
  }

  // ---------- the gates over the history ----------

  function FramesBefore(r: Run, i: nat): seq<Vehicle.Frame>
    requires i <= |r.evs|
  {
    if i == 0 then []
    else FramesBefore(r, i - 1) + (if r.evs[i - 1].sec.FrameIn? then [r.evs[i - 1].sec.f] else [])
  }

  /** The latest policy received before section i. */
  function PolicyBefore(r: Run, i: nat): Option<Gate>
    requires i <= |r.evs|
  {
    if i == 0 then None
    else if r.evs[i - 1].sec.PolicyIn? then Some(r.evs[i - 1].sec.p)
    else PolicyBefore(r, i - 1)
  }

  lemma LinkStep(r: Run, i: nat)
    requires i < |r.evs|
    ensures var sec, s, s' := r.evs[i].sec, r.S(i), r.S(i + 1);
            && s'.link == (if sec.FrameIn? then Vehicle.Receive(r.cfg.outSysID, r.cfg.maxStatus, s.link, sec.f)
                           else s.link)
            && s'.policy == if sec.PolicyIn? then Some(sec.p) else s.policy
  {
  }

  lemma {:induction false} LinkIsRunOfFrames(r: Run, i: nat)
    requires r.s0 == QUIET_BOOT && i <= |r.evs|
    ensures r.S(i).link == Vehicle.Run(r.cfg.outSysID, r.cfg.maxStatus, FramesBefore(r, i))
    ensures r.S(i).policy == PolicyBefore(r, i)
  {
    if i > 0 {
      var p := i - 1;
      LinkIsRunOfFrames(r, p);
      LinkStep(r, p);
      var fs := FramesBefore(r, p);
      if r.evs[p].sec.FrameIn? {
        assert (fs + [r.evs[p].sec.f])[..|fs|] == fs;
      } else {
        assert fs + [] == fs;
      }
    }
  }

  /** The authorisation rule, over the history alone, with each gate at the instant it was read: the
      frames before q1 show a ready vehicle, those before q2 its type, and the policy before q3 and
      the configuration allow the rest. */
  ghost predicate PermittedAt(r: Run, q1: nat, q2: nat, q3: nat, kind: Kind)
    requires q1 <= |r.evs| && q2 <= |r.evs| && q3 <= |r.evs|
  {
    var policy := PolicyBefore(r, q3);
    && r.cfg.hasMavlink && Vehicle.ReadyNow(r.cfg.outSysID, FramesBefore(r, q1))
    && (Vehicle.FlyingNow(r.cfg.outSysID, FramesBefore(r, q2)) ==>
          r.cfg.allowAircraft && (policy.Some? ==> policy.value.allowAircraft))
    && r.cfg.allowControl && (policy.Some? ==> policy.value.allowControl)
    && (kind == RcOverride ==> r.cfg.allowRcOverride == Some(true) && (policy.Some? ==> policy.value.allowRcOverride))
    && (kind == GotoGlobal ==> r.cfg.allowGoto != Some(false) && (policy.Some? ==> policy.value.allowGoto))
  }

  lemma GatesInHistory(r: Run, q1: nat, q2: nat, q3: nat, kind: Kind)
    requires r.s0 == QUIET_BOOT && q1 <= |r.evs| && q2 <= |r.evs| && q3 <= |r.evs|
    ensures Admitted(r.cfg, CanObey(r.cfg, r.S(q1).link), IsAircraft(r.cfg, r.S(q2).link), r.S(q3).policy, kind) <==>
            PermittedAt(r, q1, q2, q3, kind)
  {
    LinkIsRunOfFrames(r, q1);
    LinkIsRunOfFrames(r, q2);
    LinkIsRunOfFrames(r, q3);
    Vehicle.ViewInHistory(r.cfg.outSysID, r.cfg.maxStatus, FramesBefore(r, q1));
    Vehicle.ViewInHistory(r.cfg.outSysID, r.cfg.maxStatus, FramesBefore(r, q2));
  }

  /** Exactly when a dead-man iteration gets past its first look, over the history: with a link, local
      control on and frames that show a ready vehicle; the policy plays no part. */
  lemma LookIffReady(r: Run, i: nat)
    requires r.s0 == QUIET_BOOT && i < |r.evs| && r.evs[i].sec.TickLook? && r.S(i).tick.Idle?
    ensures r.S(i + 1).tick == Looked <==>
              r.cfg.hasMavlink && r.cfg.allowControl && Vehicle.ReadyNow(r.cfg.outSysID, FramesBefore(r, i))
  {
    LinkIsRunOfFrames(r, i);
    Vehicle.ViewInHistory(r.cfg.outSysID, r.cfg.maxStatus, FramesBefore(r, i));
  }

  /** The decision on a message, over the history: let through exactly when that permits its kind,
      each gate at the instant it was read; otherwise the message is gone. */
  lemma DecidedIffPermitted(r: Run, q3: nat, kind: Kind) returns (q1: nat, q2: nat)
    requires r.s0 == QUIET_BOOT && q3 < |r.evs| && r.evs[q3].sec == ControlSplit.Decide(kind)
    requires kind in r.S(q3).streams && r.S(q3).streams[kind].Typed?
    ensures q1 < q2 < q3 && r.evs[q2].sec == Classify(kind)
    ensures r.evs[q1].sec == Receive(kind, r.S(q3).streams[kind].data)
    ensures kind in r.S(q3 + 1).streams <==> PermittedAt(r, q1, q2, q3, kind)
    ensures kind in r.S(q3 + 1).streams ==>
              r.S(q3 + 1).streams[kind] == Gated(r.Now(q3), r.S(q3).streams[kind].data)
  {
    var pc := r.S(q3).streams[kind];
    q1, q2 := TypedSince(r, q3, kind, pc.eligible, pc.aircraft, pc.data);
    StreamMoves(r, q3, kind);
    GatesInHistory(r, q1, q2, q3, kind);
  }

  // ---------- when one instant would have permitted it ----------

  /** The type read at q2 is no excuse: what is an aircraft at q was seen as one, or may fly anyway. */
  ghost predicate TypeHolds(r: Run, q: nat, q2: nat, q3: nat)
    requires q <= |r.evs| && q2 <= |r.evs| && q3 <= |r.evs|
  {
    IsAircraft(r.cfg, r.S(q).link) ==>
      IsAircraft(r.cfg, r.S(q2).link) || EffectiveGate(r.cfg.LocalGate(), r.S(q3).policy, true).allowAircraft
  }

  /** Exactly when the gates of a message that was let through all hold together: at the decision,
      when the vehicle is still ready and no type that may not fly came up; at the other two reads,
      if no policy came since, when the type agrees in the same way, and for the second the vehicle
      is still ready. */
  lemma OneInstantIff(r: Run, q1: nat, q2: nat, q3: nat, kind: Kind, data: Payload)
    requires LetThrough(r, q1, q2, q3, kind, data)
    ensures Accepts(r.cfg, r.S(q3).Shared(), kind) <==> CanObey(r.cfg, r.S(q3).link) && TypeHolds(r, q3, q2, q3)
    ensures NoPolicy(r, q2, q3) ==> (Accepts(r.cfg, r.S(q2).Shared(), kind) <==> CanObey(r.cfg, r.S(q2).link))
    ensures NoPolicy(r, q1, q3) ==> (Accepts(r.cfg, r.S(q1).Shared(), kind) <==> TypeHolds(r, q1, q2, q3))
  {
    if NoPolicy(r, q2, q3) {
      PolicyStays(r, q2, q3);
    }
    if NoPolicy(r, q1, q3) {
      PolicyStays(r, q1, q3);
    }
  }

  ghost predicate NoPolicy(r: Run, a: nat, b: nat)
    requires b <= |r.evs|
  {
    forall x: nat | a <= x < b :: !r.evs[x].sec.PolicyIn?
  }

  lemma {:induction false} PolicyStays(r: Run, a: nat, i: nat)
    requires a <= i <= |r.evs| && NoPolicy(r, a, i)
    ensures r.S(i).policy == r.S(a).policy
  {
    if i > a {
      PolicyStays(r, a, i - 1);
      LinkStep(r, i - 1);
    }
  }

  ghost predicate NoFrame(r: Run, a: nat, b: nat)
    requires b <= |r.evs|
  {
    forall x: nat | a <= x < b :: !r.evs[x].sec.FrameIn?
  }

  lemma {:induction false} LinkStays(r: Run, a: nat, i: nat)
    requires a <= i <= |r.evs| && NoFrame(r, a, i)
    ensures r.S(i).link == r.S(a).link
  {
    if i > a {
      LinkStays(r, a, i - 1);
      LinkStep(r, i - 1);
    }
  }

  // ---------- what goes out ----------

  /** A command goes out at j only as the message of its stream or as a re-send. */
  lemma OnlySendsApply(r: Run, j: nat, kind: Kind, data: Payload)
    requires j < |r.evs| && Apply(kind, data) in r.Out(j)
    ensures if r.Reissues(j) then kind == GotoGlobal
            else r.Sends(j, kind) && r.S(j).streams[kind].data == data && r.Out(j) == [Apply(kind, data)]
  {
  }

  /** However the sections interleave, whatever is applied and is no re-send was let through by its
      three gates, each read at one instant since its receipt, so the history permitted it gate by
      gate; it goes out unchanged and once. When all gates held together is as in OneInstantIff. */
  lemma ForwardedWasAdmitted(r: Run, j: nat, kind: Kind, data: Payload) returns (q1: nat, q2: nat, q3: nat)
    requires r.s0 == QUIET_BOOT && j < |r.evs| && Apply(kind, data) in r.Out(j) && !r.Reissues(j)
    ensures q3 < j && LetThrough(r, q1, q2, q3, kind, data) && r.Out(j) == [Apply(kind, data)]
    ensures PermittedAt(r, q1, q2, q3, kind)
    ensures forall x: nat | q1 <= x < j :: !r.Sends(x, kind)
    ensures Accepts(r.cfg, r.S(q3).Shared(), kind) <==> CanObey(r.cfg, r.S(q3).link) && TypeHolds(r, q3, q2, q3)
    ensures NoPolicy(r, q1, q3) ==> (Accepts(r.cfg, r.S(q1).Shared(), kind) <==> TypeHolds(r, q1, q2, q3))
    ensures NoFrame(r, q1, q3) ==> Accepts(r.cfg, r.S(q3).Shared(), kind)
  {
    OnlySendsApply(r, j, kind, data);
    q1, q2, q3 := LetThroughSince(r, j, kind, r.S(j).streams[kind].now, data);
    forall x: nat | q1 <= x < j
      ensures !r.Sends(x, kind)
    {
      PendingIsUnsent(r, q1, j, kind, x);
    }
    GatesInHistory(r, q1, q2, q3, kind);
    OneInstantIff(r, q1, q2, q3, kind, data);
    if NoFrame(r, q1, q3) {
      LinkStays(r, q1, q2);
      LinkStays(r, q1, q3);
    }
  }
}
