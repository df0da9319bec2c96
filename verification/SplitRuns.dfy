/** What the session guarantees over every interleaving of the lock sections of its handlers, and
    the exact conditions of what an interleaving can break. */
module SplitRuns {
  import opened Common
  import opened Control
  import opened ControlSplit
  import opened Pulse
  import ControlRuns

  datatype Run = Run(cfg: Config, s0: Split, evs: seq<ControlSplit.Timed>) {
    /** The state before section i. */
    ghost function S(i: nat): Split
      requires i <= |evs|
    {
      if i == 0 then s0 else SplitStep(cfg, S(i - 1), evs[i - 1]).0
    }

    ghost function Out(i: nat): seq<Output>
      requires i < |evs|
    {
      SplitStep(cfg, S(i), evs[i]).1
    }

    function Now(i: nat): int
      requires i < |evs|
    {
      evs[i].now
    }

    predicate Ordered() {
      forall i, j | 0 <= i <= j < |evs| :: evs[i].now <= evs[j].now
    }

    /** Section i records a gated control message. */
    ghost predicate Notes(i: nat)
      requires i < |evs|
    {
      evs[i].sec.Note? && evs[i].sec.kind in S(i).streams && S(i).streams[evs[i].sec.kind].Gated?
    }

    /** The message that section recorded, and the instant it had passed the gates. */
    ghost function NotedData(i: nat): Payload
      requires i < |evs| && Notes(i)
    {
      S(i).streams[evs[i].sec.kind].data
    }

    ghost function NotedAt(i: nat): int
      requires i < |evs| && Notes(i)
    {
      S(i).streams[evs[i].sec.kind].now
    }

    ghost predicate NotesGoto(i: nat)
      requires i < |evs|
    {
      Notes(i) && evs[i].sec.kind == GotoGlobal
    }

    /** Section i is the mark of a GOTO its stream has sent. */
    ghost predicate Stamps(i: nat)
      requires i < |evs|
    {
      evs[i].sec == Mark(GotoGlobal) && GotoGlobal in S(i).streams && S(i).streams[GotoGlobal].Sent?
    }

    /** Section i forwards the message of a stream. */
    ghost predicate Sends(i: nat, kind: Kind)
      requires i < |evs|
    {
      evs[i].sec == Send(kind) && kind in S(i).streams && S(i).streams[kind].Noted?
    }

    // The sections of the dead-man iteration, where they do something.
    ghost predicate Reads(i: nat)
      requires i < |evs|
    {
      evs[i].sec.TickRead? && S(i).tick.Looked?
    }

    ghost predicate Reissues(i: nat)
      requires i < |evs|
    {
      evs[i].sec.TickSend? && S(i).tick.Sending?
    }

    ghost predicate Marks(i: nat)
      requires i < |evs|
    {
      evs[i].sec.TickMark? && S(i).tick.Marking?
    }

    ghost predicate Checks(i: nat)
      requires i < |evs|
    {
      evs[i].sec.TickArrive? && S(i).tick.Arriving?
    }

    ghost predicate Arrives(i: nat)
      requires i < |evs|
    {
      Checks(i) && Arrived(evs[i].sec.gps, evs[i].sec.dist)
    }

    ghost predicate Chooses(i: nat)
      requires i < |evs|
    {
      evs[i].sec.TickKind? && S(i).tick.Stale?
    }

    ghost predicate Stops(i: nat)
      requires i < |evs|
    {
      evs[i].sec.TickStop? && S(i).tick.Stopping?
    }

    ghost predicate Flags(i: nat)
      requires i < |evs|
    {
      evs[i].sec.TickFlag? && S(i).tick.Flagging?
    }

    ghost predicate NoNotes(a: nat, b: nat)
      requires b <= |evs|
    {
      forall x: nat | a <= x < b :: !Notes(x)
    }

    ghost predicate LastNoted(u: nat, i: nat)
      requires i <= |evs|
    {
      u < i && Notes(u) && NoNotes(u + 1, i)
    }

    /** A re-issue was marked in (u, i). */
    ghost predicate MarkedIn(u: nat, i: nat)
      requires i <= |evs|
    {
      exists x: nat :: u < x < i && Marks(x)
    }

    ghost predicate LastMarked(m: nat, i: nat)
      requires i <= |evs|
    {
      m < i && Marks(m) && forall x: nat | m < x < i :: !Marks(x)
    }

    ghost predicate LastStop(p: nat, i: nat)
      requires i <= |evs|
    {
      p < i && Stops(p) && forall x: nat | p < x < i :: !Stops(x)
    }

    /** Section i writes the stored send time of the GOTO, to Stamp(i). */
    ghost predicate WritesStamp(i: nat)
      requires i < |evs|
    {
      NotesGoto(i) || Stamps(i) || Marks(i)
    }

    ghost function Stamp(i: nat): Option<int>
      requires i < |evs| && WritesStamp(i)
    {
      if NotesGoto(i) then None else if Stamps(i) then Some(S(i).streams[GotoGlobal].now) else Some(Now(i))
    }

    ghost predicate LastStamp(w: nat, i: nat)
      requires i <= |evs|
    {
      w < i && WritesStamp(w) && forall x: nat | w < x < i :: !WritesStamp(x)
    }

    /** The snapshots, as beats. */
    ghost function Snapshots(): Beats {
      seq(|evs|, i requires 0 <= i < |evs| => if Reads(i) then Some(Now(i)) else None)
    }
  }

  // ---------- what one section does to the control state ----------

  lemma NoteEffect(r: Run, i: nat)
    requires i < |r.evs| && r.Notes(i)
    ensures r.S(i + 1).ctl == NoteControl(r.S(i).ctl, r.NotedAt(i), r.evs[i].sec.kind, r.NotedData(i))
    ensures r.S(i + 1).lastReissue == r.S(i).lastReissue && r.S(i + 1).tick == r.S(i).tick && r.Out(i) == []
  {
  }

  lemma OtherEffect(r: Run, i: nat)
    requires i < |r.evs| && !r.Notes(i)
    ensures var c, c' := r.S(i).ctl, r.S(i + 1).ctl;
            && c'.lastKind == (if r.Marks(i) then Some(GotoGlobal) else c.lastKind)
            && c'.lastAt == (if r.Marks(i) then Some(r.Now(i)) else c.lastAt)
            && c'.failsafeOn == (c.failsafeOn || r.Flags(i))
            && c'.gotoLastSent == (if r.WritesStamp(i) then r.Stamp(i) else c.gotoLastSent)
            && c'.goto == c.goto && (c'.gotoActive <==> c.gotoActive && !r.Arrives(i))
            && r.S(i + 1).lastReissue == (if r.Stops(i) then Some(r.Now(i)) else r.S(i).lastReissue)
  {
  }

  /** How the dead-man iteration moves: from each stage to the next, and only by its own sections. */
  lemma TickMoves(r: Run, i: nat)
    requires i < |r.evs|
    ensures var t, t', sec := r.S(i).tick, r.S(i + 1).tick, r.evs[i].sec;
            match t
            case Idle => t' == t || (sec.TickLook? && t' == Looked && r.S(i).Enabled(r.cfg))
            case Looked => t' == if r.Reads(i) then Snapshot(r.cfg, r.S(i), r.Now(i)) else t
            case Sending(g) => t' == if r.Reissues(i) then Marking(g) else t
            case Marking(g) => t' == if r.Marks(i) then Arriving(g) else t
            case Arriving(g) => t' == if r.Checks(i) then Idle else t
            case Stale => t' == if r.Chooses(i) then Stopping(FormOf(r.cfg, r.S(i).ctl.lastKind)) else t
            case Stopping(_) => t' == if r.Stops(i) then Flagging else t
            case Flagging => t' == if r.Flags(i) then Idle else t
  {
  }

  /** What a dead-man section sends. */
  lemma TickSends(r: Run, i: nat)
    requires i < |r.evs|
    ensures r.Reissues(i) ==> r.Out(i) == [Apply(GotoGlobal, TargetBody(r.S(i).tick.target))]
    ensures r.Stops(i) ==> r.Out(i) == [Stop(r.S(i).tick.form)]
  {
  }

  lemma OnlyStopsStop(r: Run, i: nat, form: StopForm)
    requires i < |r.evs| && Stop(form) in r.Out(i)
    ensures r.Stops(i)
  {
  }

  /** How the message of one stream moves: from each stage to the next, and only by the stream's
      own sections. */
  lemma StreamMoves(r: Run, i: nat, k: Kind)
    requires i < |r.evs|
    ensures var s, b, sec := r.S(i), r.S(i + 1).streams, r.evs[i].sec;
            if k !in s.streams then
              k in b ==> sec.Receive? && sec.kind == k && b[k] == Probed(CanObey(r.cfg, s.link), sec.data)
            else match s.streams[k]
              case Probed(e, d) =>
                k in b && b[k] == if sec == Classify(k) then Typed(e, IsAircraft(r.cfg, s.link), d) else s.streams[k]
              case Typed(e, craft, d) =>
                if sec != ControlSplit.Decide(k) then k in b && b[k] == s.streams[k]
                else if Admitted(r.cfg, e, craft, s.policy, k) then k in b && b[k] == Gated(r.Now(i), d)
                else k !in b
              case Gated(t, d) => k in b && b[k] == if sec == Note(k) then Noted(t, d) else s.streams[k]
              case Noted(t, d) => k in b && b[k] == if sec == Send(k) then Sent(t) else s.streams[k]
              case Sent(_) => if sec == Mark(k) then k !in b else k in b && b[k] == s.streams[k]
  {
  }

  // ---------- the control state against the history ----------

  lemma {:induction false} SomeLastNoted(r: Run, i: nat) returns (u: nat)
    requires i <= |r.evs| && !r.NoNotes(0, i)
    ensures r.LastNoted(u, i)
  {
    if r.Notes(i - 1) {
      u := i - 1;
    } else {
      u := SomeLastNoted(r, i - 1);
    }
  }

  /** Before the first note no message is past it. */
  lemma {:induction false} NothingSent(r: Run, i: nat, k: Kind)
    requires r.s0 == QUIET_BOOT && i <= |r.evs| && r.NoNotes(0, i)
    ensures k in r.S(i).streams ==> !r.S(i).streams[k].Noted? && !r.S(i).streams[k].Sent?
  {
    if i > 0 {
      NothingSent(r, i - 1, k);
      StreamMoves(r, i - 1, k);
      assert !r.Notes(i - 1);
    }
  }

  /** Before the first note the dead-man has nothing to do. */
  lemma {:induction false} NothingNoted(r: Run, i: nat)
    requires r.s0 == QUIET_BOOT && i <= |r.evs| && r.NoNotes(0, i)
    ensures r.S(i).ctl.lastAt.None? && r.S(i).ctl.gotoLastSent.None? && !r.S(i).ctl.gotoActive
    ensures (r.S(i).tick.Idle? || r.S(i).tick.Looked?) && r.S(i).lastReissue.None?
  {
    if i > 0 {
      NothingNoted(r, i - 1);
      NothingSent(r, i - 1, GotoGlobal);
      StillNothing(r, i - 1);
    }
  }

  lemma StillNothing(r: Run, p: nat)
    requires p < |r.evs| && !r.Notes(p) && !r.Stamps(p)
    requires r.S(p).ctl.lastAt.None? && r.S(p).ctl.gotoLastSent.None? && !r.S(p).ctl.gotoActive
    requires (r.S(p).tick.Idle? || r.S(p).tick.Looked?) && r.S(p).lastReissue.None?
    ensures r.S(p + 1).ctl.lastAt.None? && r.S(p + 1).ctl.gotoLastSent.None? && !r.S(p + 1).ctl.gotoActive
    ensures (r.S(p + 1).tick.Idle? || r.S(p + 1).tick.Looked?) && r.S(p + 1).lastReissue.None?
  {
    OtherEffect(r, p);
    TickMoves(r, p);
  }

  /** The one step every induction below takes: LastNoted(u, i + 1) from LastNoted(u, i). */
  lemma StillLast(r: Run, u: nat, i: nat)
    requires 0 < i <= |r.evs| && r.LastNoted(u, i) && u != i - 1
    ensures r.LastNoted(u, i - 1) && !r.Notes(i - 1)
    ensures r.MarkedIn(u, i) <==> r.MarkedIn(u, i - 1) || r.Marks(i - 1)
  {
  }

  /** The remembered kind, at any later state: that of the latest noted control, exactly unless a
      re-issue was marked since; then it reads GOTO. */
  lemma {:induction false} KindAfterControl(r: Run, u: nat, i: nat)
    requires i <= |r.evs| && r.LastNoted(u, i)
    ensures var kind := r.evs[u].sec.kind;
            && (r.S(i).ctl.lastKind == Some(kind) <==> kind == GotoGlobal || !r.MarkedIn(u, i))
            && (r.MarkedIn(u, i) ==> r.S(i).ctl.lastKind == Some(GotoGlobal))
  {
    if i == u + 1 {
      NoteEffect(r, u);
    } else {
      StillLast(r, u, i);
      KindAfterControl(r, u, i - 1);
      OtherEffect(r, i - 1);
    }
  }

  /** The remembered instant: when the latest noted control passed the gates, unless a re-issue
      was marked since; then the latest such mark. */
  lemma {:induction false} AgeAfterControl(r: Run, u: nat, i: nat)
    requires i <= |r.evs| && r.LastNoted(u, i)
    ensures !r.MarkedIn(u, i) ==> r.S(i).ctl.lastAt == Some(r.NotedAt(u))
    ensures forall m: nat | u < m && r.LastMarked(m, i) :: r.S(i).ctl.lastAt == Some(r.Now(m))
    ensures r.S(i).ctl.lastAt.Some?
  {
    if i == u + 1 {
      NoteEffect(r, u);
    } else {
      StillLast(r, u, i);
      var p := i - 1;
      AgeAfterControl(r, u, p);
      OtherEffect(r, p);
      forall m: nat | u < m && r.LastMarked(m, i)
        ensures r.S(i).ctl.lastAt == Some(r.Now(m))
      {
        if m < p {
          assert r.LastMarked(m, p);
        }
      }
    }
  }

  /** The failsafe flag: up exactly when a stop was written back after the latest noted control. */
  lemma {:induction false} FlagAfterControl(r: Run, u: nat, i: nat)
    requires i <= |r.evs| && r.LastNoted(u, i)
    ensures r.S(i).ctl.failsafeOn <==> exists x: nat :: u < x < i && r.Flags(x)
  {
    if i == u + 1 {
      NoteEffect(r, u);
    } else {
      StillLast(r, u, i);
      FlagAfterControl(r, u, i - 1);
      OtherEffect(r, i - 1);
    }
  }

  /** The loop remembers when it last stopped the vehicle. */
  lemma {:induction false} LastStopIsRemembered(r: Run, i: nat)
    requires r.s0 == QUIET_BOOT && i <= |r.evs|
    ensures forall p: nat | r.LastStop(p, i) :: r.S(i).lastReissue == Some(r.Now(p))
    ensures r.S(i).lastReissue.Some? ==> exists p: nat :: r.LastStop(p, i)
  {
    if i > 0 {
      var n := i - 1;
      LastStopIsRemembered(r, n);
      if r.Notes(n) {
        NoteEffect(r, n);
      } else {
        OtherEffect(r, n);
      }
      forall p: nat
        ensures r.LastStop(p, i) <==> if r.Stops(n) then p == n else r.LastStop(p, n)
      {
      }
      if r.Stops(n) {
        assert r.LastStop(n, i);
      } else if r.S(i).lastReissue.Some? {
        var p: nat :| r.LastStop(p, n);
        assert r.LastStop(p, i);
      }
    }
  }

  // ---------- the form of a stop ----------

  /** A pending stop has the form of the kind its iteration read. */
  lemma {:induction false} StopHasForm(r: Run, i: nat) returns (q: nat)
    requires r.s0.tick == Idle && i <= |r.evs| && r.S(i).tick.Stopping?
    ensures q < i && r.Chooses(q) && r.S(i).tick.form == FormOf(r.cfg, r.S(q).ctl.lastKind)
    ensures forall x: nat | q < x < i :: !r.Chooses(x)
  {
    var p := i - 1;
    TickMoves(r, p);
    if r.S(p).tick.Stopping? {
      q := StopHasForm(r, p);
    } else {
      q := p;
    }
  }

  /** The form of every dead-man stop: when its iteration read the kind, at q, some control u had
      been noted last; the stop fits u, exactly unless a re-issue was marked in between and u
      wants another stop than a velocity stop, which is what goes out then. */
  lemma StopFormIsRightIff(r: Run, j: nat, form: StopForm) returns (u: nat, q: nat)
    requires r.s0 == QUIET_BOOT && j < |r.evs| && Stop(form) in r.Out(j)
    ensures r.Out(j) == [Stop(form)]
    ensures q < j && r.Chooses(q) && (forall x: nat | q < x < j :: !r.Chooses(x)) && r.LastNoted(u, q)
    ensures var kind := r.evs[u].sec.kind;
            && (Neutralizes(r.cfg, Some(kind), form) <==> !r.MarkedIn(u, q) || kind == GotoGlobal || kind == Velocity)
            && (r.MarkedIn(u, q) ==> form == VelocityStop)
            && (!r.MarkedIn(u, q) && kind in {RcOverride, Gimbal} && 1000 <= r.cfg.throttleStopPwm <= 2000
                && 1000 <= r.cfg.steeringStopPwm <= 2000 ==>
                  form == RcStop(r.cfg.throttleStopPwm, r.cfg.steeringStopPwm))
  {
    FormNeutralizes(r.cfg, Some(GotoGlobal));
    OnlyStopsStop(r, j, form);
    q := StopHasForm(r, j);
    TickSends(r, j);
    if r.NoNotes(0, q) {
      NothingNoted(r, q);
      assert false;
    }
    u := SomeLastNoted(r, q);
    KindAfterControl(r, u, q);
    FormNeutralizes(r.cfg, Some(r.evs[u].sec.kind));
  }

  // ---------- the dead-man deadline ----------

  /** When nothing is kept alive, a snapshot finds the vehicle to stop exactly when the deadline of
      the atomic model has come. */
  lemma SnapshotStopsIffDue(r: Run, i: nat)
    requires i < |r.evs| && r.Reads(i) && r.S(i).ctl.lastAt.Some? && !r.S(i).ctl.gotoActive
    ensures r.S(i + 1).tick.Stale? <==> r.Now(i) >= ControlRuns.Due(r.cfg, r.S(i).Shared())
    ensures !r.S(i + 1).tick.Stale? ==> r.S(i + 1).tick.Idle?
  {
    TickMoves(r, i);
  }

  /** The deadline after any interleaving, with u the latest noted control and no GOTO active. It
      is staleAfter past the last activity exactly when no stop was written back since u, or the
      latest stop is a whole re-issue period older than that; otherwise one such period after
      that stop. Without a mark since u the last activity is u itself. */
  lemma PromptDeadlineIff(r: Run, u: nat, i: nat)
    requires r.s0 == QUIET_BOOT && i <= |r.evs| && r.LastNoted(u, i) && !r.S(i).ctl.gotoActive
    ensures r.S(i).ctl.lastAt.Some? && (!r.MarkedIn(u, i) ==> r.S(i).ctl.lastAt.value == r.NotedAt(u))
    ensures var prompt, due := r.S(i).ctl.lastAt.value + r.cfg.StaleAfter(), ControlRuns.Due(r.cfg, r.S(i).Shared());
            && (due == prompt <==>
                  || (forall x: nat | u < x < i :: !r.Flags(x))
                  || (forall p: nat | r.LastStop(p, i) :: r.Now(p) + r.cfg.ReissueEvery() <= prompt))
            && (due != prompt ==> exists p: nat :: r.LastStop(p, i) && due == r.Now(p) + r.cfg.ReissueEvery())
  {
    AgeAfterControl(r, u, i);
    FlagAfterControl(r, u, i);
    LastStopIsRemembered(r, i);
  }

  // ---------- GOTO provenance ----------

  /** An active GOTO is the latest noted control. */
  lemma {:induction false} ActiveGotoIsLastNoted(r: Run, i: nat) returns (u: nat)
    requires r.s0 == QUIET_BOOT && i <= |r.evs| && r.S(i).ctl.gotoActive
    ensures r.LastNoted(u, i) && r.NotesGoto(u) && r.S(i).ctl.goto == TargetOf(r.NotedData(u))
  {
    var p := i - 1;
    if r.Notes(p) {
      NoteEffect(r, p);
      u := p;
    } else {
      OtherEffect(r, p);
      u := ActiveGotoIsLastNoted(r, p);
    }
  }

  ghost predicate KeepsAlive(t: TickPc) {
    t.Sending? || t.Marking? || t.Arriving?
  }

  /** The one snapshot a keep-alive iteration works from: it saw its target active, and the
      iteration has not ended since. */
  ghost predicate SnapshotOf(r: Run, q: nat, i: nat)
    requires i <= |r.evs|
  {
    && q < i && r.Reads(q) && KeepsAlive(r.S(i).tick)
    && r.S(q).ctl.gotoActive && r.S(i).tick.target == r.S(q).ctl.goto
    && forall x: nat | q < x <= i :: KeepsAlive(r.S(x).tick)
  }

  lemma {:induction false} KeepAliveHasSnapshot(r: Run, i: nat) returns (q: nat)
    requires r.s0.tick == Idle && i <= |r.evs| && KeepsAlive(r.S(i).tick)
    ensures SnapshotOf(r, q, i)
    ensures r.S(i).tick.Sending? ==> forall x: nat | q < x <= i :: r.S(x).tick.Sending?
  {
    var p := i - 1;
    TickMoves(r, p);
    if KeepsAlive(r.S(p).tick) {
      q := KeepAliveHasSnapshot(r, p);
    } else {
      q := p;
    }
  }

  /** Where a re-send comes from, under every interleaving: it carries the GOTO that was the
      latest noted control when its iteration took the snapshot, and is the only one since. */
  lemma ReissueFromSnapshot(r: Run, j: nat) returns (u: nat, q: nat)
    requires r.s0 == QUIET_BOOT && j < |r.evs| && r.Reissues(j)
    ensures SnapshotOf(r, q, j) && r.LastNoted(u, q) && r.NotesGoto(u)
    ensures r.Out(j) == [Apply(GotoGlobal, TargetBody(TargetOf(r.NotedData(u))))]
    ensures r.S(q + 1).tick.Sending? && forall x: nat | q <= x < j :: !r.Reissues(x)
  {
    q := KeepAliveHasSnapshot(r, j);
    u := ActiveGotoIsLastNoted(r, q);
    TickSends(r, j);
    forall x: nat | q <= x < j
      ensures !r.Reissues(x)
    {
      TickMoves(r, x);
    }
  }

  /** At most one stale re-send follows a cancel or a retarget: once a control is noted at c, the
      second re-send after it and before the next control can only be to c's own target. */
  lemma AtMostOneStaleReissue(r: Run, c: nat, j1: nat, j2: nat)
    requires r.s0 == QUIET_BOOT && c < j1 < j2 < |r.evs| && r.LastNoted(c, j2)
    requires r.Reissues(j1) && r.Reissues(j2)
    ensures r.NotesGoto(c) && r.Out(j2) == [Apply(GotoGlobal, TargetBody(TargetOf(r.NotedData(c))))]
  {
    var u, q := ReissueFromSnapshot(r, j2);
    assert q > j1;
    assert u == c;
  }

  /** Exactly when an arrival check ends the active GOTO: the position is a fix within two metres. */
  lemma CheckEndsIff(r: Run, j: nat)
    requires j < |r.evs| && r.Checks(j) && r.S(j).ctl.gotoActive
    ensures var gps, dist := r.evs[j].sec.gps, r.evs[j].sec.dist;
            !r.S(j + 1).ctl.gotoActive <==>
              (gps.lat != 0.0 || gps.lon != 0.0) && gps.sats > 0 && 0.0 <= dist <= 2.0
  {
    OtherEffect(r, j);
  }

  /** Which GOTO an arrival ends. The check at j belongs to the one snapshot q and measured the
      distance to that snapshot's target; the GOTO it ends is u, the latest noted control. The
      snapshot saw that very GOTO exactly when no control was noted since; otherwise u is a new
      GOTO that is dropped without having been looked at. */
  lemma ArrivalEndsItsOwnGotoIff(r: Run, j: nat) returns (q: nat, u: nat)
    requires r.s0 == QUIET_BOOT && j < |r.evs| && r.Checks(j) && r.S(j).ctl.gotoActive && !r.S(j + 1).ctl.gotoActive
    ensures SnapshotOf(r, q, j)
    ensures var gps, dist := r.evs[j].sec.gps, r.evs[j].sec.dist;
            (gps.lat != 0.0 || gps.lon != 0.0) && gps.sats > 0 && 0.0 <= dist <= 2.0
    ensures r.LastNoted(u, j) && r.NotesGoto(u) && r.S(j + 1).ctl.goto == TargetOf(r.NotedData(u))
    ensures r.LastNoted(u, q) <==> r.NoNotes(q, j)
    ensures r.LastNoted(u, q) ==> r.S(j).tick.target == TargetOf(r.NotedData(u))
    ensures !r.LastNoted(u, q) ==> q < u
  {
    q := KeepAliveHasSnapshot(r, j);
    u := ActiveGotoIsLastNoted(r, j);
    CheckEndsIff(r, j);
    OtherEffect(r, j);
    var v := ActiveGotoIsLastNoted(r, q);
    if u < q {
      assert v == u;
    } else {
      assert !r.Notes(q);
    }
  }

  // ---------- the send time of a GOTO, and spacing ----------

  /** The stored send time is what the latest section that writes it wrote. */
  lemma {:induction false} StampIsLatest(r: Run, i: nat)
    requires r.s0 == QUIET_BOOT && i <= |r.evs|
    ensures forall w: nat | r.LastStamp(w, i) :: r.S(i).ctl.gotoLastSent == r.Stamp(w)
    ensures (forall w: nat :: !r.LastStamp(w, i)) ==>
              r.S(i).ctl.gotoLastSent.None? && forall w: nat | w < i :: !r.WritesStamp(w)
  {
    if i > 0 {
      var n := i - 1;
      StampIsLatest(r, n);
      StampStep(r, n);
      LastStampStep(r, i);
      if r.WritesStamp(n) {
        assert r.LastStamp(n, i);
      } else if w: nat :| r.LastStamp(w, n) {
        assert r.LastStamp(w, i);
      }
    }
  }

  lemma StampStep(r: Run, n: nat)
    requires n < |r.evs|
    ensures r.S(n + 1).ctl.gotoLastSent == if r.WritesStamp(n) then r.Stamp(n) else r.S(n).ctl.gotoLastSent
  {
    if r.Notes(n) {
      NoteEffect(r, n);
    } else {
      OtherEffect(r, n);
    }
  }

  lemma LastStampStep(r: Run, i: nat)
    requires 0 < i <= |r.evs|
    ensures forall w: nat :: r.LastStamp(w, i) <==> if r.WritesStamp(i - 1) then w == i - 1 else r.LastStamp(w, i - 1)
  {
    var n := i - 1;
    forall w: nat
      ensures r.LastStamp(w, i) <==> if r.WritesStamp(n) then w == n else r.LastStamp(w, n)
    {
    }
  }

  /** Exactly when a snapshot re-sends, with u the active GOTO: when nothing was marked since u was
      noted, as between the note and the mark of u itself, or the latest mark is a second old. */
  lemma SnapshotReissuesIff(r: Run, u: nat, q: nat)
    requires r.s0 == QUIET_BOOT && q < |r.evs| && r.Reads(q) && r.LastNoted(u, q) && r.S(q).ctl.gotoActive
    ensures r.NotesGoto(u)
    ensures r.S(q + 1).tick.Sending? <==>
              || (forall w: nat | u < w < q :: !r.WritesStamp(w))
              || (exists w: nat :: u < w && r.LastStamp(w, q) && r.Now(q) - r.Stamp(w).value >= 1_000_000_000)
  {
    var v := ActiveGotoIsLastNoted(r, q);
    assert v == u;
    TickMoves(r, q);
    StampIsLatest(r, q);
    assert r.WritesStamp(u);
    if forall w: nat | u < w < q :: !r.WritesStamp(w) {
      assert r.LastStamp(u, q);
    } else {
      var w: nat :| r.LastStamp(w, q);
      assert u < w && !r.Notes(w);
    }
  }

  /** Two re-sends are a second apart unless a GOTO was noted or marked by its stream in between. */
  lemma ReissuesAreSpaced(r: Run, j1: nat, j2: nat)
    requires r.s0 == QUIET_BOOT && r.Ordered() && j1 < j2 < |r.evs| && r.Reissues(j1) && r.Reissues(j2)
    requires forall x: nat | j1 < x < j2 :: !r.NotesGoto(x) && !r.Stamps(x)
    ensures r.Now(j2) - r.Now(j1) >= 1_000_000_000
  {
    var u, q := ReissueFromSnapshot(r, j2);
    TickMoves(r, q);
    SentIsMarked(r, j1, q);
    StampIsLatest(r, q);
    var m: nat :| j1 < m < q && r.Marks(m);
    assert r.WritesStamp(m);
    var w: nat :| r.LastStamp(w, q);
    assert m <= w && !r.NotesGoto(w);
  }

  /** Once a re-send went out, its iteration marks it before the next snapshot. */
  lemma {:induction false} SentIsMarked(r: Run, j: nat, i: nat)
    requires j < i <= |r.evs| && r.Reissues(j)
    ensures r.S(i).tick.Marking? || exists m: nat :: j < m < i && r.Marks(m)
  {
    TickMoves(r, i - 1);
    if i > j + 1 {
      SentIsMarked(r, j, i - 1);
    }
  }
}
