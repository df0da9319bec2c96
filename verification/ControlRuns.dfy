/** What the control session guarantees over whole runs: any interleaving of frames, policies,
    control messages, ticks, connects and disconnects, each taken as one atomic step. */
module ControlRuns {
  import opened Common
  import opened Vehicle
  import opened Control
  import opened Pulse

  datatype Run = Run(cfg: Config, s0: Sys, evs: seq<Timed>) {
    /** The state before event i. */
    ghost function S(i: nat): Sys
      requires i <= |evs|
    {
      if i == 0 then s0 else Step(cfg, S(i - 1), evs[i - 1]).0
    }

    ghost function Out(i: nat): seq<Output>
      requires i < |evs|
    {
      Step(cfg, S(i), evs[i]).1
    }

    function Now(i: nat): int
      requires i < |evs|
    {
      evs[i].now
    }

    predicate IsTick(i: nat)
      requires i < |evs|
    {
      evs[i].ev.Tick?
    }

    /** The ticks, as beats. */
    ghost function Ticks(): Beats {
      seq(|evs|, i requires 0 <= i < |evs| => if IsTick(i) then Some(Now(i)) else None)
    }

    /** Event i is a control message that was forwarded. */
    ghost predicate Accepted(i: nat)
      requires i < |evs|
    {
      evs[i].ev.ControlIn? && Out(i) != []
    }

    ghost predicate LastAccepted(k: nat, i: nat)
      requires i <= |evs|
    {
      k < i && Accepted(k) && forall j | k < j < i :: !Accepted(j)
    }

    ghost predicate NoneAccepted(i: nat)
      requires i <= |evs|
    {
      forall j | 0 <= j < i :: !Accepted(j)
    }

    predicate Ordered() {
      forall i, j | 0 <= i <= j < |evs| :: evs[i].now <= evs[j].now
    }

    predicate LatestPolicy(p: nat, i: nat)
      requires i <= |evs|
    {
      p < i && evs[p].ev.PolicyIn? && forall j | p < j < i :: !evs[j].ev.PolicyIn?
    }

    function FramesBefore(i: nat): seq<Frame>
      requires i <= |evs|
    {
      if i == 0 then [] else FramesBefore(i - 1) + (if evs[i - 1].ev.FrameIn? then [evs[i - 1].ev.f] else [])
    }
  }

  // ---------- the control state against the history ----------

  ghost predicate CtlFollows(r: Run, i: nat)
    requires i <= |r.evs|
  {
    var c := r.S(i).ctl;
    && (forall k: nat | r.LastAccepted(k, i) ::
          && c.lastAt.Some? && c.lastKind == Some(r.evs[k].ev.kind)
          && (c.gotoActive ==> r.evs[k].ev.kind == GotoGlobal && c.goto == TargetOf(r.evs[k].ev.data) && !c.failsafeOn))
    && (r.NoneAccepted(i) ==> c.lastAt.None? && c.lastKind.None? && !c.gotoActive)
  }

  /** What any event other than an accepted control does to the control state. */
  lemma OtherStep(cfg: Config, s: Sys, e: Timed)
    requires !(e.ev.ControlIn? && Step(cfg, s, e).1 != [])
    ensures var c, c' := s.ctl, Step(cfg, s, e).0.ctl;
            && c'.goto == c.goto && (c'.gotoActive ==> c.gotoActive && c'.failsafeOn == c.failsafeOn)
            && (if c.gotoActive
                then c'.lastKind in {c.lastKind, Some(GotoGlobal)} && (c.lastAt.Some? ==> c'.lastAt.Some?)
                else c'.lastKind == c.lastKind && c'.lastAt == c.lastAt)
  {
  }

  /** What an accepted control leaves behind. */
  lemma AcceptedStep(cfg: Config, s: Sys, e: Timed)
    requires e.ev.ControlIn? && Step(cfg, s, e).1 != []
    ensures var c' := Step(cfg, s, e).0.ctl;
            && c'.lastAt == Some(e.now) && c'.lastKind == Some(e.ev.kind) && !c'.failsafeOn
            && (c'.gotoActive <==> e.ev.kind == GotoGlobal) && (c'.gotoActive ==> c'.goto == TargetOf(e.ev.data))
  {
  }

  lemma CtlFollowsAccepted(r: Run, i: nat)
    requires i < |r.evs| && r.Accepted(i)
    ensures CtlFollows(r, i + 1)
  {
    AcceptedStep(r.cfg, r.S(i), r.evs[i]);
    var n := i + 1;
    assert forall k: nat | r.LastAccepted(k, n) :: k == i;
  }

  lemma CtlFollowsOther(r: Run, i: nat)
    requires i < |r.evs| && !r.Accepted(i) && CtlFollows(r, i)
    ensures CtlFollows(r, i + 1)
  {
    SomeLastAccepted(r, i);
    var n := i + 1;
    OtherStep(r.cfg, r.S(i), r.evs[i]);
    if r.NoneAccepted(i) {
      assert forall k: nat :: !r.LastAccepted(k, n);
    } else {
      var k: nat :| r.LastAccepted(k, i);
      assert forall j: nat | r.LastAccepted(j, n) :: j == k;
    }
  }

  lemma {:induction false} CtlFollowsHistory(r: Run, i: nat)
    requires r.s0 == BOOT && i <= |r.evs|
    ensures CtlFollows(r, i)
  {
    if i > 0 {
      CtlFollowsHistory(r, i - 1);
      if r.Accepted(i - 1) {
        CtlFollowsAccepted(r, i - 1);
      } else {
        CtlFollowsOther(r, i - 1);
      }
    }
  }

  lemma {:induction false} SomeLastAccepted(r: Run, i: nat)
    requires i <= |r.evs|
    ensures r.NoneAccepted(i) || exists k: nat :: r.LastAccepted(k, i)
  {
    if i > 0 && !r.NoneAccepted(i) {
      if r.Accepted(i - 1) {
        assert r.LastAccepted(i - 1, i);
      } else {
        SomeLastAccepted(r, i - 1);
        var k: nat :| r.LastAccepted(k, i - 1);
        assert r.LastAccepted(k, i);
      }
    }
  }

  /** Every stop, from a tick or a disconnect, has the form fixed by the last applied control;
      ticks emit no stop before the first one. After an RC override or a gimbal command that is the
      configured throttle and steering, each on its own channel. */
  lemma StopFitsLastControl(r: Run, i: nat, form: StopForm)
    requires r.s0 == BOOT && i < |r.evs| && Stop(form) in r.Out(i)
    ensures r.cfg.hasMavlink && (r.NoneAccepted(i) ==> r.evs[i].ev.Disconnect? && Neutralizes(r.cfg, None, form))
    ensures forall k: nat | r.LastAccepted(k, i) :: Neutralizes(r.cfg, Some(r.evs[k].ev.kind), form)
    ensures forall k: nat | r.LastAccepted(k, i) && r.evs[k].ev.kind in {RcOverride, Gimbal}
                            && 1000 <= r.cfg.throttleStopPwm <= 2000 && 1000 <= r.cfg.steeringStopPwm <= 2000 ::
              form == RcStop(r.cfg.throttleStopPwm, r.cfg.steeringStopPwm)
    ensures forall k: nat | r.LastAccepted(k, i) :: form == FormOf(r.cfg, Some(r.evs[k].ev.kind))
  {
    CtlFollowsHistory(r, i);
    StopsAreRemembered(r.cfg, r.S(i), r.evs[i], form);
    FormNeutralizes(r.cfg, r.S(i).ctl.lastKind);
  }

  /** Every stop has the form of the remembered kind; a tick stops only once one is. */
  lemma StopsAreRemembered(cfg: Config, s: Sys, e: Timed, form: StopForm)
    requires Stop(form) in Step(cfg, s, e).1
    ensures form == FormOf(cfg, s.ctl.lastKind) && cfg.hasMavlink
    ensures e.ev.Disconnect? || (e.ev.Tick? && s.ctl.lastAt.Some?)
  {
  }

  /** A connection that goes down stops the vehicle twice, once from each side, whatever the
      vehicle's eligibility; going down again before a new connection does nothing more. */
  lemma {:induction false} DisconnectStopsPerConnection(r: Run, i: nat, j: nat)
    requires r.s0 == BOOT && i < j < |r.evs| && r.evs[i].ev.Disconnect? && r.evs[j].ev.Disconnect?
    requires forall x | i < x < j :: !r.evs[x].ev.Connect?
    ensures r.Out(j) == []
    ensures forall k: nat | r.LastAccepted(k, i) && r.S(i).loop.Running? && r.cfg.hasMavlink ::
              var stop := Stop(FormOf(r.cfg, Some(r.evs[k].ev.kind))); r.Out(i) == [stop, stop]
  {
    CtlFollowsHistory(r, i);
    StaysDown(r, i, j);
  }

  lemma {:induction false} StaysDown(r: Run, i: nat, j: nat)
    requires i < j <= |r.evs| && r.evs[i].ev.Disconnect? && forall x | i < x < j :: !r.evs[x].ev.Connect?
    ensures r.S(j).loop.Stopped?
  {
    if j > i + 1 {
      StaysDown(r, i, j - 1);
    }
  }

  /** sent holds exactly the three coordinates of given, 0 for one that is missing there. */
  predicate SameTarget(sent: Payload, given: Payload) {
    && sent.Keys == {"lat", "lon", "alt"}
    && sent["lat"] == (if "lat" in given then given["lat"] else 0.0)
    && sent["lon"] == (if "lon" in given then given["lon"] else 0.0)
    && sent["alt"] == (if "alt" in given then given["alt"] else 0.0)
  }

  lemma TicksApplyTarget(cfg: Config, s: Sys, e: Timed)
    requires e.ev.Tick?
    ensures forall kind, data | Apply(kind, data) in Step(cfg, s, e).1 ::
              kind == GotoGlobal && s.ctl.gotoActive && data == TargetBody(s.ctl.goto)
    ensures s.ctl.gotoActive ==> forall o | o in Step(cfg, s, e).1 :: o.Apply?
  {
  }

  lemma BodyIsTarget(t: Target)
    ensures forall given | TargetOf(given) == t :: SameTarget(TargetBody(t), given)
  {
    assert "lat"[0] != "alt"[0] && "lat"[1] != "lon"[1] && "lon"[0] != "alt"[0];
  }

  /** Whatever a tick applies is a GOTO to exactly the coordinates of the latest accepted
      control, which was a GOTO; a tick that starts with a GOTO active never stops. */
  lemma ReissueProvenance(r: Run, i: nat)
    requires r.s0 == BOOT && i < |r.evs| && r.IsTick(i)
    ensures forall kind, data | Apply(kind, data) in r.Out(i) ::
              kind == GotoGlobal && exists k: nat :: r.LastAccepted(k, i) && r.evs[k].ev.kind == GotoGlobal
                                                && SameTarget(data, r.evs[k].ev.data)
    ensures r.S(i).ctl.gotoActive ==> forall o | o in r.Out(i) :: o.Apply?
  {
    TicksApplyTarget(r.cfg, r.S(i), r.evs[i]);
    BodyIsTarget(r.S(i).ctl.goto);
    CtlFollowsHistory(r, i);
    SomeLastAccepted(r, i);
    TargetRoundTrip(r.S(i).ctl.goto);
  }

  ghost predicate SendsGoto(r: Run, m: nat)
    requires m < |r.evs|
  {
    exists data :: Apply(GotoGlobal, data) in r.Out(m)
  }

  /** With atomic handlers a re-issue is never closer than one second to any earlier GOTO send. */
  lemma ReissueSpacing(r: Run, m: nat, j: nat)
    requires r.Ordered() && m < j < |r.evs|
    requires SendsGoto(r, m) && r.IsTick(j) && SendsGoto(r, j)
    ensures r.Now(j) - r.Now(m) >= 1_000_000_000
  {
    SentIsRemembered(r, m, j);
  }

  lemma {:induction false} SentIsRemembered(r: Run, m: nat, i: nat)
    requires r.Ordered() && m < i <= |r.evs|
    requires SendsGoto(r, m)
    ensures r.S(i).ctl.gotoLastSent.Some? && r.S(i).ctl.gotoLastSent.value >= r.Now(m)
  {
    if i > m + 1 {
      SentIsRemembered(r, m, i - 1);
    }
  }

  // ---------- authorisation ----------

  lemma {:induction false} LinkIsRunOfFrames(r: Run, i: nat)
    requires r.s0 == BOOT && i <= |r.evs|
    ensures r.S(i).link == Vehicle.Run(r.cfg.outSysID, r.cfg.maxStatus, r.FramesBefore(i))
  {
    if i > 0 {
      LinkIsRunOfFrames(r, i - 1);
      var fs := r.FramesBefore(i - 1);
      if r.evs[i - 1].ev.FrameIn? {
        assert (fs + [r.evs[i - 1].ev.f])[..|fs|] == fs;
      } else {
        assert fs + [] == fs;
      }
    }
  }

  lemma SameLatestPolicy(r: Run, i: nat)
    requires 0 < i <= |r.evs| && !r.evs[i - 1].ev.PolicyIn?
    ensures forall p: nat :: r.LatestPolicy(p, i) <==> r.LatestPolicy(p, i - 1)
  {
    var n := i - 1;
    forall p: nat
      ensures r.LatestPolicy(p, i) <==> r.LatestPolicy(p, n)
    {
    }
  }

  lemma {:induction false} PolicyIsLatest(r: Run, i: nat)
    requires r.s0 == BOOT && i <= |r.evs|
    ensures r.S(i).policy.None? <==> forall j | 0 <= j < i :: !r.evs[j].ev.PolicyIn?
    ensures forall p: nat | r.LatestPolicy(p, i) :: r.S(i).policy == Some(r.evs[p].ev.p)
    ensures r.S(i).policy.Some? ==> exists p: nat :: r.LatestPolicy(p, i)
  {
    if i > 0 {
      PolicyIsLatest(r, i - 1);
      if r.evs[i - 1].ev.PolicyIn? {
        assert r.LatestPolicy(i - 1, i);
      } else {
        SameLatestPolicy(r, i);
        assert r.S(i).policy == r.S(i - 1).policy;
        if r.S(i).policy.Some? {
          var p: nat :| r.LatestPolicy(p, i - 1);
          assert r.LatestPolicy(p, i);
        }
      }
    }
  }

  /** The authorisation rule, over the history alone. */
  ghost predicate Permitted(r: Run, i: nat, kind: Kind)
    requires i <= |r.evs|
  {
    && r.cfg.hasMavlink
    && ReadyNow(r.cfg.outSysID, r.FramesBefore(i))
    && (FlyingNow(r.cfg.outSysID, r.FramesBefore(i)) ==>
          r.cfg.allowAircraft && PolicyAllows(r, i, (g: Gate) => g.allowAircraft))
    && r.cfg.allowControl && PolicyAllows(r, i, (g: Gate) => g.allowControl)
    && (kind == RcOverride ==> r.cfg.allowRcOverride == Some(true))
    && (kind == RcOverride ==> PolicyAllows(r, i, (g: Gate) => g.allowRcOverride))
    && (kind == GotoGlobal ==> r.cfg.allowGoto != Some(false) && PolicyAllows(r, i, (g: Gate) => g.allowGoto))
  }

  /** The latest policy, if one was ever seen, grants what f reads. */
  ghost predicate PolicyAllows(r: Run, i: nat, f: Gate -> bool)
    requires i <= |r.evs|
  {
    forall p: nat | r.LatestPolicy(p, i) :: f(r.evs[p].ev.p)
  }

  lemma PolicyAllowsIs(r: Run, i: nat, f: Gate -> bool)
    requires r.s0 == BOOT && i <= |r.evs|
    ensures PolicyAllows(r, i, f) <==> (r.S(i).policy.None? || f(r.S(i).policy.value))
  {
    PolicyIsLatest(r, i);
  }

  /** End-to-end authorisation: over any run, a control message is forwarded exactly when the
      history up to its receipt permits its kind, and then it is forwarded unchanged. */
  lemma ForwardedIffPermitted(r: Run, i: nat)
    requires r.s0 == BOOT && i < |r.evs| && r.evs[i].ev.ControlIn?
    ensures var ev := r.evs[i].ev;
            r.Out(i) == if Permitted(r, i, ev.kind) then [Apply(ev.kind, ev.data)] else []
  {
    PolicyAllowsIs(r, i, (g: Gate) => g.allowAircraft);
    PolicyAllowsIs(r, i, (g: Gate) => g.allowControl);
    PolicyAllowsIs(r, i, (g: Gate) => g.allowRcOverride);
    PolicyAllowsIs(r, i, (g: Gate) => g.allowGoto);
    LinkIsRunOfFrames(r, i);
    ViewInHistory(r.cfg.outSysID, r.cfg.maxStatus, r.FramesBefore(i));
    assert Accepts(r.cfg, r.S(i), r.evs[i].ev.kind) <==> Permitted(r, i, r.evs[i].ev.kind);
  }

  // ---------- timing ----------

  /** When the next enabled tick will act: re-issue the active GOTO, or stop a stale vehicle. */
  function Due(cfg: Config, s: Sys): int
    requires s.ctl.lastAt.Some? && s.loop.Running? && (s.ctl.gotoActive ==> s.ctl.gotoLastSent.Some?)
  {
    if s.ctl.gotoActive then s.ctl.gotoLastSent.value + GOTO_REISSUE
    else
      var stale := s.ctl.lastAt.value + cfg.StaleAfter();
      if s.ctl.failsafeOn && s.loop.lastReissue.Some? && s.loop.lastReissue.value + cfg.ReissueEvery() > stale
      then s.loop.lastReissue.value + cfg.ReissueEvery() else stale
  }

  /** What that tick will do. */
  function DueAction(cfg: Config, s: Sys): Output {
    if s.ctl.gotoActive then Apply(GotoGlobal, TargetBody(s.ctl.goto)) else Stop(FormOf(cfg, s.ctl.lastKind))
  }

  predicate Armed(s: Sys) {
    s.ctl.lastAt.Some? && s.loop.Running? && (s.ctl.gotoActive ==> s.ctl.gotoLastSent.Some?)
  }

  /** Between a and b nothing but ticks touches the control state: no control is accepted, the
      connection stays up, every tick finds the vehicle eligible and no GOTO arrives. */
  ghost predicate Undisturbed(r: Run, a: nat, b: nat) {
    && a <= b <= |r.evs| && Armed(r.S(a))
    && forall i | a <= i < b ::
         && !r.Accepted(i) && !r.evs[i].ev.Disconnect?
         && (r.IsTick(i) ==> r.cfg.hasMavlink && r.cfg.allowControl && Eligible(r.S(i).link.view))
         && (r.IsTick(i) && r.S(i).ctl.gotoActive ==>
               var gps, dist := r.evs[i].ev.gps, r.evs[i].ev.dist;
               (gps.lat == 0.0 && gps.lon == 0.0) || gps.sats <= 0 || dist < 0.0 || dist > 2.0)
  }

  /** How long after it acts the dead-man acts again. */
  ghost function Period(r: Run, m: nat): int
    requires m <= |r.evs|
  {
    if r.S(m).ctl.gotoActive then GOTO_REISSUE else r.cfg.ReissueEvery()
  }

  /** One undisturbed event acts exactly when it is a tick and the deadline has passed. */
  lemma UndisturbedStep(r: Run, a: nat, b: nat, i: nat)
    requires Undisturbed(r, a, b) && a <= i < b && Armed(r.S(i))
    ensures Armed(r.S(i + 1))
    ensures r.Out(i) == if r.IsTick(i) && r.Now(i) >= Due(r.cfg, r.S(i)) then [DueAction(r.cfg, r.S(i))] else []
    ensures r.Out(i) == [] ==> r.S(i + 1).ctl == r.S(i).ctl && r.S(i + 1).loop == r.S(i).loop
    ensures r.Out(i) != [] ==> Due(r.cfg, r.S(i + 1)) == r.Now(i) + Period(r, i)
    ensures r.Out(i) != [] ==> DueAction(r.cfg, r.S(i + 1)) == DueAction(r.cfg, r.S(i))
    ensures r.Out(i) != [] ==> r.S(i + 1).ctl.gotoActive == r.S(i).ctl.gotoActive
  {
  }

  /** The control state is still what it was before event a. */
  ghost predicate Unchanged(r: Run, a: nat, x: nat)
    requires a <= |r.evs| && x <= |r.evs|
  {
    r.S(x).ctl == r.S(a).ctl && r.S(x).loop == r.S(a).loop
  }

  lemma WaitStep(r: Run, a: nat, b: nat, x: nat)
    requires Undisturbed(r, a, b) && a <= x < b && Unchanged(r, a, x)
    requires !(r.IsTick(x) && r.Now(x) >= Due(r.cfg, r.S(a)))
    ensures Unchanged(r, a, x + 1) && r.Out(x) == []
  {
    assert Armed(r.S(x)) && Due(r.cfg, r.S(x)) == Due(r.cfg, r.S(a));
    UndisturbedStep(r, a, b, x);
  }

  /** Until a tick reaches the deadline, an undisturbed window stays as it is. */
  lemma {:induction false} WaitsUntilDue(r: Run, a: nat, b: nat, x: nat)
    requires Undisturbed(r, a, b) && a <= x <= b
    requires forall y | a <= y < x :: !(r.IsTick(y) && r.Now(y) >= Due(r.cfg, r.S(a)))
    ensures Unchanged(r, a, x)
    ensures forall y | a <= y < x :: r.Out(y) == []
  {
    if x > a {
      WaitsUntilDue(r, a, b, x - 1);
      WaitStep(r, a, b, x - 1);
    }
  }

  /** From a on, the first thing that happens is o, at tick j, no later than event k. */
  ghost predicate FirstAct(r: Run, a: nat, k: nat, j: nat, o: Output) {
    && a <= j <= k < |r.evs| && r.IsTick(j) && r.Out(j) == [o]
    && forall x | a <= x < j :: r.Out(x) == []
  }

  /** Bounded response from any state at all, with ticks at most d apart. A deadline that is still
      ahead is met in [deadline, deadline + d); one that has passed is met by the very first tick,
      at most d after the start. Nothing happens before. */
  lemma BoundedResponse(r: Run, a: nat, b: nat, k: nat, start: int, d: int) returns (j: nat)
    requires Undisturbed(r, a, b) && Within(r.Ticks(), a, b, start, d)
    requires a <= k < b && r.IsTick(k) && r.Now(k) >= Due(r.cfg, r.S(a))
    ensures FirstAct(r, a, k, j, DueAction(r.cfg, r.S(a)))
    ensures var due := Due(r.cfg, r.S(a));
            && due <= r.Now(j) && (if start < due then r.Now(j) < due + d else r.Now(j) <= start + d)
            && (due <= start && (forall x: nat | a <= x < b && r.IsTick(x) :: start <= r.Now(x)) ==>
                  forall x: nat | a <= x < j :: !r.IsTick(x))
  {
    var due := Due(r.cfg, r.S(a));
    assert Hits(r.Ticks(), k, due);
    j := FirstHit(r.Ticks(), a, b, a, k, start, d, due);
    assert forall x: nat | a <= x < j :: Hits(r.Ticks(), x, due) <==> r.IsTick(x) && r.Now(x) >= due;
    WaitsUntilDue(r, a, b, j);
    UndisturbedStep(r, a, b, j);
  }

  /** Dead-man, first stop: after an accepted control that is not a GOTO, at t0, the vehicle is
      stopped in [t0 + staleAfter, t0 + staleAfter + d), in the form that control fixes. */
  lemma DeadManFirstStop(r: Run, c: nat, b: nat, k: nat, d: int) returns (j: nat)
    requires c < |r.evs| && r.Accepted(c) && r.evs[c].ev.kind != GotoGlobal && r.S(c).loop.Running?
    requires Undisturbed(r, c + 1, b) && Within(r.Ticks(), c + 1, b, r.Now(c), d)
    requires c < k < b && r.IsTick(k) && r.Now(k) >= r.Now(c) + r.cfg.StaleAfter()
    ensures FirstAct(r, c + 1, k, j, Stop(FormOf(r.cfg, Some(r.evs[c].ev.kind))))
    ensures var due := r.Now(c) + r.cfg.StaleAfter(); due <= r.Now(j) < due + d
    ensures 1 <= r.cfg.controlTimeoutMs <= 5000 ==>
              var due := r.Now(c) + r.cfg.controlTimeoutMs * 1_000_000; due <= r.Now(j) < due + d
  {
    PeriodsAreMilliseconds(r.cfg);
    j := BoundedResponse(r, c + 1, b, k, r.Now(c), d);
  }

  /** A reconnect with stale control: the control accepted last before it, at c, has outlived
      staleAfter when the connection is back at o, and is not an active GOTO. The very first
      tick stops the vehicle once more, at most d after the reconnect, whatever was stopped before. */
  lemma ReconnectStopsStale(r: Run, c: nat, o: nat, b: nat, k: nat, d: int) returns (j: nat)
    requires r.s0 == BOOT && o < |r.evs| && r.evs[o].ev.Connect? && r.S(o).loop.Stopped?
    requires r.LastAccepted(c, o) && !r.S(o).ctl.gotoActive
    requires Elapsed(r.S(o).ctl.lastAt, r.Now(o), r.cfg.StaleAfter())
    requires Undisturbed(r, o + 1, b) && Within(r.Ticks(), o + 1, b, r.Now(o), d)
    requires o < k < b && r.IsTick(k) && r.Now(k) >= r.Now(o)
    ensures FirstAct(r, o + 1, k, j, Stop(FormOf(r.cfg, Some(r.evs[c].ev.kind)))) && r.Now(j) <= r.Now(o) + d
  {
    LastAcceptedIsRemembered(r, c, o);
    ConnectStep(r.cfg, r.S(o), r.evs[o]);
    var a := o + 1;
    assert r.S(a) == Step(r.cfg, r.S(o), r.evs[o]).0;
    j := BoundedResponse(r, a, b, k, r.Now(o), d);
  }

  lemma LastAcceptedIsRemembered(r: Run, c: nat, i: nat)
    requires r.s0 == BOOT && i <= |r.evs| && r.LastAccepted(c, i)
    ensures r.S(i).ctl.lastAt.Some? && r.S(i).ctl.lastKind == Some(r.evs[c].ev.kind)
  {
    CtlFollowsHistory(r, i);
  }

  /** A new connection forgets when the loop last stopped the vehicle, and nothing else. */
  lemma ConnectStep(cfg: Config, s: Sys, e: Timed)
    requires e.ev.Connect? && s.loop.Stopped? && s.ctl.lastAt.Some? && !s.ctl.gotoActive
    ensures var s' := Step(cfg, s, e).0;
            && s'.ctl == s.ctl && Armed(s') && Due(cfg, s') == s.ctl.lastAt.value + cfg.StaleAfter()
            && DueAction(cfg, s') == Stop(FormOf(cfg, s.ctl.lastKind))
  {
  }

  /** Dead-man and keep-alive, every later action: after a tick acted at m, the next one acts
      one period later, within d: the same stop while stale, the same GOTO while one is active. */
  lemma NextAction(r: Run, a: nat, b: nat, m: nat, k: nat, d: int) returns (j: nat)
    requires Undisturbed(r, a, b) && a <= m < k < b && Armed(r.S(m)) && r.Out(m) != []
    requires Within(r.Ticks(), m + 1, b, r.Now(m), d)
    requires r.IsTick(k) && r.Now(k) >= r.Now(m) + Period(r, m)
    ensures |r.Out(m)| == 1 && FirstAct(r, m + 1, k, j, r.Out(m)[0])
    ensures var due := r.Now(m) + Period(r, m); due <= r.Now(j) < due + d
    ensures r.S(m).ctl.gotoActive ==> Period(r, m) == 1_000_000_000
    ensures !r.S(m).ctl.gotoActive && 1 <= r.cfg.reissueStopMs <= 5000 ==>
              Period(r, m) == r.cfg.reissueStopMs * 1_000_000
  {
    PeriodsAreMilliseconds(r.cfg);
    UndisturbedStep(r, a, b, m);
    assert Undisturbed(r, m + 1, b);
    PeriodIsPositive(r, m);
    j := BoundedResponse(r, m + 1, b, k, r.Now(m), d);
  }

  lemma PeriodIsPositive(r: Run, m: nat)
    requires m <= |r.evs|
    ensures Period(r, m) > 0
  {
  }

  /** Keep-alive, first re-issue: after an accepted GOTO at t0 the same target is sent again in
      [t0 + 1 s, t0 + 1 s + d) while it has not been reached. */
  lemma GotoKeptAlive(r: Run, c: nat, b: nat, k: nat, d: int) returns (j: nat)
    requires c < |r.evs| && r.Accepted(c) && r.evs[c].ev.kind == GotoGlobal && r.S(c).loop.Running?
    requires Undisturbed(r, c + 1, b) && Within(r.Ticks(), c + 1, b, r.Now(c), d)
    requires c < k < b && r.IsTick(k) && r.Now(k) >= r.Now(c) + GOTO_REISSUE
    ensures FirstAct(r, c + 1, k, j, Apply(GotoGlobal, TargetBody(TargetOf(r.evs[c].ev.data))))
    ensures var due := r.Now(c) + 1_000_000_000; due <= r.Now(j) < due + d
  {
    j := BoundedResponse(r, c + 1, b, k, r.Now(c), d);
  }

  /** Event m is the latest one before i that sent a GOTO, on acceptance or as a re-issue. */
  ghost predicate LastGotoSend(r: Run, m: nat, i: nat)
    requires i <= |r.evs|
  {
    m < i && SendsGoto(r, m) && forall x: nat | m < x < i :: !SendsGoto(r, x)
  }

  /** What one event does to an active GOTO's clock. */
  lemma GotoClockStep(r: Run, i: nat)
    requires i < |r.evs| && r.S(i + 1).ctl.gotoActive
    ensures var c, c' := r.S(i).ctl, r.S(i + 1).ctl;
            if SendsGoto(r, i) then c'.lastAt == Some(r.Now(i)) && c'.gotoLastSent == Some(r.Now(i))
            else c.gotoActive && c'.lastAt == c.lastAt && c'.gotoLastSent == c.gotoLastSent
  {
    var c := r.S(i).ctl;
    if r.IsTick(i) && r.Out(i) != [] {
      assert Apply(GotoGlobal, TargetBody(c.goto)) in r.Out(i);
    } else if r.evs[i].ev.ControlIn? && r.Out(i) != [] {
      assert Apply(GotoGlobal, r.evs[i].ev.data) in r.Out(i);
    }
  }

  /** While a GOTO is active, both clocks read the instant it was last sent. */
  lemma {:induction false} ActiveGotoClock(r: Run, i: nat) returns (m: nat)
    requires r.s0 == BOOT && i <= |r.evs| && r.S(i).ctl.gotoActive
    ensures LastGotoSend(r, m, i)
    ensures r.S(i).ctl.lastAt == Some(r.Now(m)) && r.S(i).ctl.gotoLastSent == Some(r.Now(m))
  {
    var p := i - 1;
    GotoClockStep(r, p);
    if SendsGoto(r, p) {
      m := p;
    } else {
      m := ActiveGotoClock(r, p);
    }
  }

  /** Exactly when a tick ends an active GOTO, over any run: it must be running with a link and local
      control on, the frames so far must show a ready vehicle, and the position must be a fix within
      two metres of the target. Further away, without a satellite or at 0, 0 the GOTO goes on. */
  lemma ArrivalIff(r: Run, i: nat)
    requires r.s0 == BOOT && i < |r.evs| && r.IsTick(i) && r.S(i).ctl.gotoActive
    ensures var gps, dist := r.evs[i].ev.gps, r.evs[i].ev.dist;
            !r.S(i + 1).ctl.gotoActive <==>
              && r.S(i).loop.Running? && r.cfg.hasMavlink && r.cfg.allowControl
              && ReadyNow(r.cfg.outSysID, r.FramesBefore(i))
              && (gps.lat != 0.0 || gps.lon != 0.0) && gps.sats > 0 && 0.0 <= dist <= 2.0
  {
    LinkIsRunOfFrames(r, i);
    ViewInHistory(r.cfg.outSysID, r.cfg.maxStatus, r.FramesBefore(i));
  }

  /** Once a tick sees the arrival, the dead-man takes over: its deadline is staleAfter past the
      latest GOTO send before or at that tick, and it will stop the vehicle by velocity. */
  lemma ArrivalHandsOver(r: Run, i: nat) returns (m: nat)
    requires r.s0 == BOOT && i < |r.evs| && r.IsTick(i) && r.S(i).ctl.gotoActive && !r.S(i + 1).ctl.gotoActive
    ensures LastGotoSend(r, m, i + 1)
    ensures Armed(r.S(i + 1)) && DueAction(r.cfg, r.S(i + 1)) == Stop(VelocityStop)
    ensures Due(r.cfg, r.S(i + 1)) == r.Now(m) + r.cfg.StaleAfter()
  {
    m := ActiveGotoClock(r, i);
    ArrivalStep(r.cfg, r.S(i), r.evs[i]);
    ActiveGotoIsCalm(r, i);
    if r.Out(i) != [] {
      assert r.Out(i)[0] in r.Out(i);
      m := i;
    }
  }

  /** The tick that sees the arrival. */
  lemma ArrivalStep(cfg: Config, s: Sys, e: Timed)
    requires e.ev.Tick? && s.ctl.gotoActive && !Step(cfg, s, e).0.ctl.gotoActive
    ensures var (s', out) := Step(cfg, s, e);
            && s'.loop.Running? && s'.loop == s.loop && s'.ctl.failsafeOn == s.ctl.failsafeOn
            && (if out == [] then s'.ctl.lastAt == s.ctl.lastAt && s'.ctl.lastKind == s.ctl.lastKind
                else s'.ctl.lastAt == Some(e.now) && s'.ctl.lastKind == Some(GotoGlobal)
                     && out == [Apply(GotoGlobal, TargetBody(s.ctl.goto))])
  {
  }

  /** An active GOTO is the latest accepted control, and the failsafe flag is down. */
  lemma ActiveGotoIsCalm(r: Run, i: nat)
    requires r.s0 == BOOT && i <= |r.evs| && r.S(i).ctl.gotoActive
    ensures r.S(i).ctl.lastKind == Some(GotoGlobal) && !r.S(i).ctl.failsafeOn
  {
    CtlFollowsHistory(r, i);
    SomeLastAccepted(r, i);
  }

  // ---------- what the code does not promise ----------

  const GO := ControlIn(GotoGlobal, map[])
  const BOAT_FRAME := FrameIn(Frame(1, 1, HeartbeatMsg(Heartbeat(3, 11, 128, 15))))
  const OPEN_CONFIG := Config(true, None, None, false, 450, 500, 1500, 1500, true, 255, 20)
  const DENY_ALL := Gate(false, false, false, false)

  /** A tick consults the local AllowControl flag only, so revoking the policy does not silence
      an active GOTO: the very next due tick sends it again. */
  lemma RevocationDoesNotCancelGoto(r: Run)
    requires r == Run(OPEN_CONFIG, BOOT, [At(0, Connect), At(0, BOAT_FRAME), At(1, GO), At(2, PolicyIn(DENY_ALL)),
                                          At(1 + GOTO_REISSUE, Tick(Gps(0.0, 0.0, 0), 0.0))])
    ensures !Permitted(r, 4, GotoGlobal) && r.Out(4) == [Apply(GotoGlobal, TargetBody(Target(0.0, 0.0, 0.0)))]
  {
    assert r.S(1) == BOOT.(loop := Running(None));
    var v := View(true, 11, Guided);
    assert Decode(Heartbeat(3, 11, 128, 15)) == v;
    assert r.S(2).link.view == v && r.S(2).policy.None? && r.S(2).loop == Running(None);
    assert Accepts(OPEN_CONFIG, r.S(2), GotoGlobal);
    assert r.S(3).ctl.gotoActive && r.S(3).ctl.gotoLastSent == Some(1) && r.S(3).ctl.goto == Target(0.0, 0.0, 0.0);
    assert r.S(4) == r.S(3).(policy := Some(DENY_ALL));
    PolicyAllowsIs(r, 4, (g: Gate) => g.allowControl);
  }
}
