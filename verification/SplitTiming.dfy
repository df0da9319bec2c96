/** By when the dead-man acts, over every interleaving of lock sections: the stop after the last
    control, wherever in an iteration that control lands, and the re-send of a GOTO. */
module SplitTiming {
  import opened Common
  import opened Control
  import opened ControlSplit
  import opened Pulse
  import opened SplitRuns
  import ControlRuns

  // ---------- bounded response ----------

  /** Some control was seen and no GOTO is active. */
  predicate Manual(c: Ctl) {
    c.lastAt.Some? && !c.gotoActive
  }

  /** From a to b no control is noted, and at a the iteration has nothing left to send, some control
      was seen and no GOTO is active. */
  ghost predicate Quiet(r: Run, a: nat, b: nat) {
    && a <= b <= |r.evs| && r.NoNotes(a, b) && Waiting(r.S(a))
    && Manual(r.S(a).ctl)
  }

  /** The iteration is between two snapshots, but for an arrival check. */
  ghost predicate Waiting(s: Split) {
    s.tick.Idle? || s.tick.Looked? || s.tick.Arriving?
  }

  /** The dead-man sees at x what it saw at a. */
  ghost predicate SameClock(r: Run, a: nat, x: nat)
    requires a <= |r.evs| && x <= |r.evs|
  {
    var c, c' := r.S(a).ctl, r.S(x).ctl;
    && c'.lastAt == c.lastAt && c'.lastKind == c.lastKind && c'.failsafeOn == c.failsafeOn
    && !c'.gotoActive && r.S(x).lastReissue == r.S(a).lastReissue
  }

  lemma QuietStep(r: Run, a: nat, b: nat, x: nat)
    requires Quiet(r, a, b) && a <= x < b && SameClock(r, a, x) && Waiting(r.S(x))
    ensures SameClock(r, a, x + 1) && !r.Stops(x) && !r.Reissues(x)
    ensures if r.Reads(x) && r.Now(x) >= ControlRuns.Due(r.cfg, r.S(a).Shared()) then r.S(x + 1).tick.Stale?
            else Waiting(r.S(x + 1))
  {
    OtherEffect(r, x);
    TickMoves(r, x);
    if r.Reads(x) {
      SnapshotStopsIffDue(r, x);
    }
  }

  lemma {:induction false} QuietUntilDue(r: Run, a: nat, b: nat, x: nat)
    requires Quiet(r, a, b) && a <= x <= b && NoHit(r.Snapshots(), a, x, ControlRuns.Due(r.cfg, r.S(a).Shared()))
    ensures SameClock(r, a, x) && Waiting(r.S(x))
    ensures forall y: nat | a <= y < x :: !r.Stops(y) && !r.Reissues(y)
  {
    if x > a {
      QuietUntilDue(r, a, b, x - 1);
      QuietStep(r, a, b, x - 1);
      assert !Hits(r.Snapshots(), x - 1, ControlRuns.Due(r.cfg, r.S(a).Shared()));
    }
  }

  /** From the snapshot that found the vehicle stale to its stop. */
  ghost predicate Halting(r: Run, a: nat, x: nat)
    requires a <= |r.evs| && x <= |r.evs|
  {
    && r.S(x).ctl.lastKind == r.S(a).ctl.lastKind
    && (r.S(x).tick.Stale? || r.S(x).tick == Stopping(FormOf(r.cfg, r.S(a).ctl.lastKind)))
  }

  /** The first stop at or after x. */
  lemma {:induction false} HaltsNext(r: Run, a: nat, b: nat, x: nat, y: nat) returns (j: nat)
    requires Quiet(r, a, b) && a <= x <= y < b && Halting(r, a, x) && r.Stops(y)
    ensures x <= j <= y && r.Stops(j) && Halting(r, a, j)
    ensures forall z: nat | x <= z < j :: !r.Stops(z) && !r.Reissues(z)
    decreases y - x
  {
    TickMoves(r, x);
    OtherEffect(r, x);
    if r.Stops(x) {
      j := x;
    } else {
      j := HaltsNext(r, a, b, x + 1, y);
    }
  }

  /** Every snapshot that finds the vehicle stale is followed by its stop within e. */
  ghost predicate StopsWithin(r: Run, a: nat, b: nat, e: int)
    requires b <= |r.evs|
  {
    forall x: nat | a <= x < b && r.Reads(x) && r.S(x + 1).tick.Stale? ::
      exists y: nat :: x < y < b && r.Stops(y) && r.Now(y) <= r.Now(x) + e
  }

  /** The first thing the dead-man does from a on is the stop at j. */
  ghost predicate FirstStop(r: Run, a: nat, j: nat, form: StopForm) {
    && a <= j < |r.evs| && r.Out(j) == [Stop(form)]
    && forall x: nat | a <= x < j :: !r.Stops(x) && !r.Reissues(x)
  }

  /** Bounded response under interleaving, from any state in which no GOTO is kept alive: with
      snapshots at most d apart, each followed by its stop within e, and no control noted, the
      vehicle is stopped in [deadline, deadline + d + e), or within d + e of the start if the
      deadline has passed; nothing is sent by the dead-man before. */
  lemma BoundedResponse(r: Run, a: nat, b: nat, k: nat, start: int, d: int, e: int) returns (j: nat)
    requires r.Ordered() && Quiet(r, a, b) && Within(r.Snapshots(), a, b, start, d) && StopsWithin(r, a, b, e)
    requires a <= k < b && r.Reads(k) && r.Now(k) >= ControlRuns.Due(r.cfg, r.S(a).Shared())
    ensures FirstStop(r, a, j, FormOf(r.cfg, r.S(a).ctl.lastKind))
    ensures var due := ControlRuns.Due(r.cfg, r.S(a).Shared());
            due <= r.Now(j) && (r.Now(j) < due + d + e || (due <= start && r.Now(j) <= start + d + e))
  {
    var x := FirstStale(r, a, b, k, start, d);
    var y: nat :| x < y < b && r.Stops(y) && r.Now(y) <= r.Now(x) + e;
    j := HaltsNext(r, a, b, x + 1, y);
    TickSends(r, j);
  }

  /** The snapshot that meets the deadline. */
  lemma FirstStale(r: Run, a: nat, b: nat, k: nat, start: int, d: int) returns (x: nat)
    requires Quiet(r, a, b) && Within(r.Snapshots(), a, b, start, d)
    requires a <= k < b && r.Reads(k) && r.Now(k) >= ControlRuns.Due(r.cfg, r.S(a).Shared())
    ensures a <= x <= k && r.Reads(x) && r.S(x + 1).tick.Stale? && Halting(r, a, x + 1)
    ensures forall z: nat | a <= z <= x :: !r.Stops(z) && !r.Reissues(z)
    ensures var due := ControlRuns.Due(r.cfg, r.S(a).Shared());
            due <= r.Now(x) && (r.Now(x) < due + d || (due <= start && r.Now(x) <= start + d))
  {
    var due := ControlRuns.Due(r.cfg, r.S(a).Shared());
    assert Hits(r.Snapshots(), k, due);
    x := FirstHit(r.Snapshots(), a, b, a, k, start, d, due);
    QuietUntilDue(r, a, b, x);
    QuietStep(r, a, b, x);
  }

  /** Dead-man under interleaving: a manual control that is noted while no iteration has anything
      left to send, and is the last one, is answered by the stop that fits it, in the window that opens
      staleAfter after it passed the gates and is as wide as a tick takes. */
  lemma DeadManFirstStop(r: Run, u: nat, b: nat, k: nat, d: int, e: int) returns (j: nat)
    requires r.Ordered() && u < |r.evs| && r.Notes(u) && r.evs[u].sec.kind != GotoGlobal && Waiting(r.S(u))
    requires u < k < b <= |r.evs| && r.NoNotes(u + 1, b)
    requires Within(r.Snapshots(), u + 1, b, r.NotedAt(u), d) && StopsWithin(r, u + 1, b, e)
    requires r.Reads(k) && r.Now(k) >= r.NotedAt(u) + r.cfg.StaleAfter()
    ensures FirstStop(r, u + 1, j, FormOf(r.cfg, Some(r.evs[u].sec.kind)))
    ensures var due := r.NotedAt(u) + r.cfg.StaleAfter(); due <= r.Now(j) < due + d + e
  {
    NoteEffect(r, u);
    j := BoundedResponse(r, u + 1, b, k, r.NotedAt(u), d, e);
  }

  // ---------- from the middle of an iteration ----------

  function Longer(cfg: Config): int {
    if cfg.ReissueEvery() > cfg.StaleAfter() then cfg.ReissueEvery() else cfg.StaleAfter()
  }

  /** a is the first state from x on in which the iteration under way has nothing left to send. */
  ghost predicate FirstWaiting(r: Run, x: nat, a: nat) {
    && x <= a <= |r.evs| && Waiting(r.S(a))
    && forall y: nat | x <= y < a :: !Waiting(r.S(y))
  }

  lemma {:induction false} SomeFirstWaiting(r: Run, x: nat, k: nat) returns (a: nat)
    requires x <= k <= |r.evs| && Waiting(r.S(k))
    ensures FirstWaiting(r, x, a) && a <= k
    decreases k - x
  {
    if Waiting(r.S(x)) {
      a := x;
    } else {
      a := SomeFirstWaiting(r, x + 1, k);
    }
  }

  /** The instant at which a was reached, coming from x at start. */
  function Reached(r: Run, x: nat, a: nat, start: int): int
    requires x <= a <= |r.evs|
  {
    if a == x then start else r.Now(a - 1)
  }

  /** start lies between the sections before x and section x. */
  ghost predicate StartsAt(r: Run, x: nat, start: int) {
    && x < |r.evs| && start <= r.Now(x)
    && forall y: nat | y < x :: r.Now(y) <= start
  }

  /** The iteration under way is over before the next snapshot, so within d. */
  lemma EndsWithin(r: Run, x: nat, b: nat, k: nat, start: int, d: int) returns (a: nat)
    requires r.Ordered() && x <= k < b && StartsAt(r, x, start) && Within(r.Snapshots(), x, b, start, d) && r.Reads(k)
    ensures FirstWaiting(r, x, a) && a <= k && Within(r.Snapshots(), a, b, start, d)
    ensures start <= Reached(r, x, a, start) <= start + d
    ensures forall y: nat | y < a :: r.Now(y) <= Reached(r, x, a, start)
  {
    a := SomeFirstWaiting(r, x, k);
    var beats := r.Snapshots();
    assert Silent(beats, x, a);
    WithinFrom(beats, x, a, b, start, d);
    var j := FirstBeat(beats, a, b, a, k, start, d);
  }

  ghost predicate PastGates(pc: CtlPc) {
    pc.Gated? || pc.Noted? || pc.Sent?
  }

  /** No message was let through later than t. */
  ghost predicate StreamsBehind(s: Split, t: int) {
    forall k: Kind | k in s.streams && PastGates(s.streams[k]) :: s.streams[k].now <= t
  }

  lemma {:induction false} StreamsAreBehind(r: Run, i: nat, t: int)
    requires r.s0 == QUIET_BOOT && i <= |r.evs| && forall y: nat | y < i :: r.Now(y) <= t
    ensures StreamsBehind(r.S(i), t)
  {
    if i > 0 {
      var p := i - 1;
      StreamsAreBehind(r, p, t);
      forall k: Kind | k in r.S(i).streams && PastGates(r.S(i).streams[k])
        ensures r.S(i).streams[k].now <= t
      {
        StreamMoves(r, p, k);
      }
    }
  }

  ghost predicate NotAfter(at: Option<int>, t: int) {
    at.Some? ==> at.value <= t
  }

  /** Nothing the dead-man remembers is ahead of the clock. */
  lemma {:induction false} ClocksAreBehind(r: Run, i: nat, t: int)
    requires r.s0 == QUIET_BOOT && i <= |r.evs| && forall y: nat | y < i :: r.Now(y) <= t
    ensures NotAfter(r.S(i).ctl.lastAt, t) && NotAfter(r.S(i).ctl.gotoLastSent, t) && NotAfter(r.S(i).lastReissue, t)
  {
    if i > 0 {
      var p := i - 1;
      ClocksAreBehind(r, p, t);
      StreamsAreBehind(r, p, t);
      if r.Notes(p) {
        NoteEffect(r, p);
      } else {
        OtherEffect(r, p);
      }
    }
  }

  /** Without a new note a GOTO does not come back, and some control remains seen. */
  lemma {:induction false} StaysManual(r: Run, x: nat, i: nat)
    requires x <= i <= |r.evs| && r.NoNotes(x, i) && Manual(r.S(x).ctl)
    ensures Manual(r.S(i).ctl)
  {
    if i > x {
      StaysManual(r, x, i - 1);
      ManualStep(r, i - 1);
    }
  }

  lemma ManualStep(r: Run, i: nat)
    requires i < |r.evs| && !r.Notes(i) && Manual(r.S(i).ctl)
    ensures Manual(r.S(i + 1).ctl)
    ensures r.S(i + 1).ctl.lastAt.value == if r.Marks(i) then r.Now(i) else r.S(i).ctl.lastAt.value
  {
    OtherEffect(r, i);
  }

  ghost predicate TickSendsAt(r: Run, x: nat)
    requires x < |r.evs|
  {
    r.Stops(x) || r.Reissues(x)
  }

  /** After its send an iteration has nothing left to send. */
  lemma {:induction false} SendIsSpent(r: Run, y: nat, i: nat)
    requires y < i <= |r.evs| && TickSendsAt(r, y) && forall v: nat | y < v <= i :: !Waiting(r.S(v))
    ensures r.S(i).tick.Marking? || r.S(i).tick.Flagging?
  {
    TickMoves(r, i - 1);
    if i > y + 1 {
      SendIsSpent(r, y, i - 1);
    }
  }

  /** An iteration under way sends at most once more. */
  lemma AtMostOneMore(r: Run, x: nat, a: nat, y: nat, z: nat)
    requires FirstWaiting(r, x, a) && x <= y < z < a
    ensures !(TickSendsAt(r, y) && TickSendsAt(r, z))
  {
    if TickSendsAt(r, y) {
      SendIsSpent(r, y, z);
    }
  }

  /** Bounded response from any state in which no GOTO is active, the middle of an iteration
      included: the iteration under way ends within d and sends at most once more; the first thing
      sent after it is the stop, by the longer of the two periods after its end, plus d and e. */
  lemma MidwayResponse(r: Run, x: nat, b: nat, k: nat, start: int, d: int, e: int) returns (a: nat, j: nat)
    requires r.s0 == QUIET_BOOT && r.Ordered() && x <= k < b <= |r.evs| && StartsAt(r, x, start)
    requires r.NoNotes(x, b) && Manual(r.S(x).ctl)
    requires Within(r.Snapshots(), x, b, start, d) && StopsWithin(r, x, b, e)
    requires r.Reads(k) && r.Now(k) >= start + d + Longer(r.cfg)
    ensures FirstWaiting(r, x, a) && Reached(r, x, a, start) <= start + d
    ensures forall y: nat, z: nat | x <= y < z < a :: !(TickSendsAt(r, y) && TickSendsAt(r, z))
    ensures FirstStop(r, a, j, FormOf(r.cfg, r.S(a).ctl.lastKind))
    ensures r.S(a).ctl.lastAt.Some? && r.S(a).ctl.lastAt.value + r.cfg.StaleAfter() <= r.Now(j)
    ensures r.Now(j) < Reached(r, x, a, start) + Longer(r.cfg) + d + e
  {
    a := EndsWithin(r, x, b, k, start, d);
    forall y: nat, z: nat | x <= y < z < a
      ensures !(TickSendsAt(r, y) && TickSendsAt(r, z))
    {
      AtMostOneMore(r, x, a, y, z);
    }
    StaysManual(r, x, a);
    ClocksAreBehind(r, a, Reached(r, x, a, start));
    j := BoundedResponse(r, a, b, k, start, d, e);
  }

  /** Without a new note the remembered instant only moves forward. */
  lemma {:induction false} AgeIsNotOlder(r: Run, u: nat, i: nat)
    requires r.Ordered() && u < i <= |r.evs| && r.NoNotes(u + 1, i) && Manual(r.S(u + 1).ctl)
    requires r.S(u + 1).ctl.lastAt.value <= r.Now(u)
    ensures Manual(r.S(i).ctl) && r.S(i).ctl.lastAt.value >= r.S(u + 1).ctl.lastAt.value
  {
    if i > u + 1 {
      AgeIsNotOlder(r, u, i - 1);
      ManualStep(r, i - 1);
    }
  }

  /** Dead-man, worst case: whatever the iteration under way is doing when the last manual control
      u is noted, it ends within d and sends at most once more, and then the vehicle is stopped:
      not before staleAfter past the gates, and within the longer of the two periods, d and e of
      that end. The stop fits u exactly unless the iteration marked a re-issue over it and u wants
      another than a velocity stop, which is what goes out then. */
  lemma DeadManWorstCase(r: Run, u: nat, b: nat, k: nat, d: int, e: int) returns (a: nat, j: nat, form: StopForm)
    requires r.s0 == QUIET_BOOT && r.Ordered() && u < k < b <= |r.evs|
    requires r.Notes(u) && r.evs[u].sec.kind != GotoGlobal && r.NoNotes(u + 1, b)
    requires Within(r.Snapshots(), u + 1, b, r.Now(u), d) && StopsWithin(r, u + 1, b, e)
    requires r.Reads(k) && r.Now(k) >= r.Now(u) + d + Longer(r.cfg)
    ensures FirstWaiting(r, u + 1, a) && Reached(r, u + 1, a, r.Now(u)) <= r.Now(u) + d
    ensures forall y: nat, z: nat | u < y < z < a :: !(TickSendsAt(r, y) && TickSendsAt(r, z))
    ensures FirstStop(r, a, j, form)
    ensures r.NotedAt(u) + r.cfg.StaleAfter() <= r.Now(j) < Reached(r, u + 1, a, r.Now(u)) + Longer(r.cfg) + d + e
    ensures var kind := r.evs[u].sec.kind;
            && (Neutralizes(r.cfg, Some(kind), form) <==> !r.MarkedIn(u, a) || kind == Velocity)
            && (r.MarkedIn(u, a) ==> form == VelocityStop)
  {
    NoteEffect(r, u);
    StreamsAreBehind(r, u, r.Now(u));
    a, j := MidwayResponse(r, u + 1, b, k, r.Now(u), d, e);
    form := FormOf(r.cfg, r.S(a).ctl.lastKind);
    FormNeutralizes(r.cfg, r.S(a).ctl.lastKind);
    KindAfterControl(r, u, a);
    AgeIsNotOlder(r, u, a);
  }

  // ---------- keep-alive ----------

  /** From a to b a GOTO is active: no control is noted, no stream marks a GOTO as sent, and no
      check finds a position within two metres of the target. */
  ghost predicate KeptAlive(r: Run, a: nat, b: nat) {
    && a <= b <= |r.evs| && r.S(a).ctl.gotoActive && r.NoNotes(a, b)
    && forall x: nat | a <= x < b :: !r.Stamps(x) && (r.Checks(x) ==> FarAway(r, x))
  }

  ghost predicate FarAway(r: Run, x: nat)
    requires x < |r.evs| && r.Checks(x)
  {
    var gps, dist := r.evs[x].sec.gps, r.evs[x].sec.dist;
    (gps.lat == 0.0 && gps.lon == 0.0) || gps.sats <= 0 || dist < 0.0 || dist > 2.0
  }

  /** When the GOTO is to be sent again: a second after its last mark, or at once without one. */
  function KeepDue(c: Ctl, start: int): int {
    if c.gotoLastSent.None? then start else c.gotoLastSent.value + 1_000_000_000
  }

  ghost predicate SameGoto(r: Run, a: nat, x: nat)
    requires a <= |r.evs| && x <= |r.evs|
  {
    var c, c' := r.S(a).ctl, r.S(x).ctl;
    c'.gotoActive && c'.goto == c.goto && c'.gotoLastSent == c.gotoLastSent
  }

  lemma KeepStep(r: Run, a: nat, b: nat, x: nat, start: int)
    requires KeptAlive(r, a, b) && a <= x < b && SameGoto(r, a, x) && Waiting(r.S(x)) && start <= r.Now(x)
    ensures SameGoto(r, a, x + 1) && !TickSendsAt(r, x)
    ensures if r.Reads(x) && r.Now(x) >= KeepDue(r.S(a).ctl, start) then r.S(x + 1).tick == Sending(r.S(a).ctl.goto)
            else Waiting(r.S(x + 1))
  {
    OtherEffect(r, x);
    TickMoves(r, x);
  }

  lemma {:induction false} KeepsUntilDue(r: Run, a: nat, b: nat, x: nat, start: int)
    requires r.Ordered() && KeptAlive(r, a, b) && a <= x <= b && Waiting(r.S(a)) && (a < b ==> start <= r.Now(a))
    requires NoHit(r.Snapshots(), a, x, KeepDue(r.S(a).ctl, start))
    ensures SameGoto(r, a, x) && Waiting(r.S(x))
    ensures forall y: nat | a <= y < x :: !TickSendsAt(r, y)
  {
    if x > a {
      KeepsUntilDue(r, a, b, x - 1, start);
      KeepStep(r, a, b, x - 1, start);
      assert !Hits(r.Snapshots(), x - 1, KeepDue(r.S(a).ctl, start));
    }
  }

  /** The first re-send at or after x. */
  lemma {:induction false} SendsNext(r: Run, x: nat, y: nat, t: Target) returns (j: nat)
    requires x <= y < |r.evs| && r.S(x).tick == Sending(t) && r.Reissues(y)
    ensures x <= j <= y && r.Reissues(j) && r.S(j).tick == Sending(t)
    ensures forall z: nat | x <= z < j :: !TickSendsAt(r, z)
    decreases y - x
  {
    TickMoves(r, x);
    if r.Reissues(x) {
      j := x;
    } else {
      j := SendsNext(r, x + 1, y, t);
    }
  }

  /** Every snapshot that finds a re-send due is followed by it within e. */
  ghost predicate ReissuesWithin(r: Run, a: nat, b: nat, e: int)
    requires b <= |r.evs|
  {
    forall x: nat | a <= x < b && r.Reads(x) && r.S(x + 1).tick.Sending? ::
      exists y: nat :: x < y < b && r.Reissues(y) && r.Now(y) <= r.Now(x) + e
  }

  /** The first thing the dead-man does from a on is the re-send at j. */
  ghost predicate FirstResend(r: Run, a: nat, j: nat, t: Target) {
    && a <= j < |r.evs| && r.Reissues(j) && r.Out(j) == [Apply(GotoGlobal, TargetBody(t))]
    && forall x: nat | a <= x < j :: !TickSendsAt(r, x)
  }

  /** Keep-alive under interleaving, while the iteration has nothing left to send: the active
      target is sent again in [mark + 1 s, mark + 1 s + d + e), or within d + e of the start if that
      second is over or nothing was marked, and the dead-man sends nothing before. */
  lemma KeepAliveResponse(r: Run, a: nat, b: nat, k: nat, start: int, d: int, e: int) returns (j: nat)
    requires r.Ordered() && KeptAlive(r, a, b) && Waiting(r.S(a)) && a <= k < b && start <= r.Now(a)
    requires Within(r.Snapshots(), a, b, start, d) && ReissuesWithin(r, a, b, e)
    requires r.Reads(k) && r.Now(k) >= KeepDue(r.S(a).ctl, start)
    ensures FirstResend(r, a, j, r.S(a).ctl.goto)
    ensures var due := KeepDue(r.S(a).ctl, start);
            due <= r.Now(j) && (r.Now(j) < due + d + e || (due <= start && r.Now(j) <= start + d + e))
  {
    var x := FirstDue(r, a, b, k, start, d);
    var y: nat :| x < y < b && r.Reissues(y) && r.Now(y) <= r.Now(x) + e;
    j := SendsNext(r, x + 1, y, r.S(a).ctl.goto);
    TickSends(r, j);
  }

  lemma FirstDue(r: Run, a: nat, b: nat, k: nat, start: int, d: int) returns (x: nat)
    requires r.Ordered() && KeptAlive(r, a, b) && Waiting(r.S(a)) && a <= k < b && start <= r.Now(a)
    requires Within(r.Snapshots(), a, b, start, d) && r.Reads(k) && r.Now(k) >= KeepDue(r.S(a).ctl, start)
    ensures a <= x <= k && r.Reads(x) && r.S(x + 1).tick == Sending(r.S(a).ctl.goto)
    ensures forall z: nat | a <= z <= x :: !TickSendsAt(r, z)
    ensures var due := KeepDue(r.S(a).ctl, start);
            due <= r.Now(x) && (r.Now(x) < due + d || (due <= start && r.Now(x) <= start + d))
  {
    var due := KeepDue(r.S(a).ctl, start);
    assert Hits(r.Snapshots(), k, due);
    x := FirstHit(r.Snapshots(), a, b, a, k, start, d, due);
    KeepsUntilDue(r, a, b, x, start);
    KeepStep(r, a, b, x, start);
  }

  lemma {:induction false} StaysActive(r: Run, x: nat, b: nat, i: nat)
    requires KeptAlive(r, x, b) && x <= i <= b
    ensures r.S(i).ctl.gotoActive && r.S(i).ctl.goto == r.S(x).ctl.goto
  {
    if i > x {
      StaysActive(r, x, b, i - 1);
      assert !r.Notes(i - 1);
      OtherEffect(r, i - 1);
    }
  }

  /** Keep-alive, worst case: from any state with a GOTO active, the middle of an iteration
      included, the iteration under way ends within d and sends at most once more; then the first
      thing sent is the target of the latest noted control, a second or more after the latest mark
      before it and within a second, d and e of that end. */
  lemma KeepAliveWorstCase(r: Run, x: nat, b: nat, k: nat, start: int, d: int, e: int)
    returns (u: nat, a: nat, j: nat)
    requires r.s0 == QUIET_BOOT && r.Ordered() && x <= k < b && StartsAt(r, x, start) && KeptAlive(r, x, b)
    requires Within(r.Snapshots(), x, b, start, d) && ReissuesWithin(r, x, b, e)
    requires r.Reads(k) && r.Now(k) >= start + d + 1_000_000_000
    ensures r.LastNoted(u, x) && r.NotesGoto(u)
    ensures FirstWaiting(r, x, a) && Reached(r, x, a, start) <= start + d
    ensures forall y: nat, z: nat | x <= y < z < a :: !(TickSendsAt(r, y) && TickSendsAt(r, z))
    ensures FirstResend(r, a, j, TargetOf(r.NotedData(u)))
    ensures r.Now(j) < Reached(r, x, a, start) + 1_000_000_000 + d + e
    ensures forall w: nat | r.LastStamp(w, a) && r.Stamp(w).Some? :: r.Stamp(w).value + 1_000_000_000 <= r.Now(j)
  {
    u := ActiveGotoIsLastNoted(r, x);
    a := EndsWithin(r, x, b, k, start, d);
    forall y: nat, z: nat | x <= y < z < a
      ensures !(TickSendsAt(r, y) && TickSendsAt(r, z))
    {
      AtMostOneMore(r, x, a, y, z);
    }
    StaysActive(r, x, b, a);
    ClocksAreBehind(r, a, Reached(r, x, a, start));
    j := KeepAliveResponse(r, a, b, k, start, d, e);
    StampIsLatest(r, a);
  }
}
