/** The same session with its handlers cut at their lock sections. A dead-man iteration looks at
    the vehicle, reads a snapshot, then sends, marks and checks arrival, or reads the stop's kind,
    stops and raises the flag. A control stream reads the three gates one after the other, then
    notes, sends and marks. Other threads may run between any two sections. */
module ControlSplit {
  import opened Common
  import opened Vehicle
  import opened Control
  import ControlRuns

  /** Where the dead-man iteration stands; the target is the one in its snapshot, and the distance
      of an arrival check is measured to it. */
  datatype TickPc =
    | Idle | Looked
    | Sending(target: Target) | Marking(target: Target) | Arriving(target: Target)
    | Stale | Stopping(form: StopForm) | Flagging

  /** Where a control stream stands with its message: what it has read of the gates so far, then
      the instant now at which it was through them. */
  datatype CtlPc =
    | Probed(eligible: bool, data: Payload)
    | Typed(eligible: bool, aircraft: bool, data: Payload)
    | Gated(now: int, data: Payload)
    | Noted(now: int, data: Payload)
    | Sent(now: int)

  // A stream that is waiting for a message has no entry in streams.
  datatype Split = Split(ctl: Ctl, policy: Option<Gate>, link: Link, lastReissue: Option<int>,
                         tick: TickPc, streams: map<Kind, CtlPc>)
  {
    function Shared(): Sys {
      Sys(ctl, policy, link, Running(lastReissue))
    }

    predicate Enabled(cfg: Config) {
      TickEnabled(cfg, Shared())
    }

    predicate Stands(kind: Kind, pc: CtlPc) {
      kind in streams && streams[kind] == pc
    }
  }

  const QUIET_BOOT := Split(BOOT_CTL, None, BOOT_LINK, None, Idle, map[])

  datatype Section =
    | FrameIn(f: Frame) | PolicyIn(p: Gate)
    | Receive(kind: Kind, data: Payload) | Classify(kind: Kind) | Decide(kind: Kind)
    | Note(kind: Kind) | Send(kind: Kind) | Mark(kind: Kind)
    | TickLook | TickRead | TickSend | TickMark | TickArrive(gps: Gps, dist: real)
    | TickKind | TickStop | TickFlag
  {
    predicate OfStream() {
      Receive? || Classify? || Decide? || Note? || Send? || Mark?
    }
  }

  datatype Timed = Cut(now: int, sec: Section)

  // ---------- one section ----------

  function StreamSection(cfg: Config, s: Split, now: int, sec: Section): (Split, seq<Output>)
    requires sec.OfStream() && !sec.Receive? && sec.kind in s.streams
  {
    var k := sec.kind;
    match (sec, s.streams[k])
    case (Classify(_), Probed(eligible, data)) =>
      (s.(streams := s.streams[k := Typed(eligible, IsAircraft(cfg, s.link), data)]), [])
    case (Decide(_), Typed(eligible, aircraft, data)) =>
      (s.(streams := if Admitted(cfg, eligible, aircraft, s.policy, k) then s.streams[k := Gated(now, data)]
                     else s.streams - {k}), [])
    case (Note(_), Gated(t, data)) =>
      (s.(ctl := NoteControl(s.ctl, t, k, data), streams := s.streams[k := Noted(t, data)]), [])
    case (Send(_), Noted(t, data)) => (s.(streams := s.streams[k := Sent(t)]), [Apply(k, data)])
    case (Mark(_), Sent(t)) => (s.(ctl := MarkSent(s.ctl, t, k), streams := s.streams - {k}), [])
    case _ => (s, [])
  }

  function TickSection(cfg: Config, s: Split, now: int, sec: Section): (Split, seq<Output>)
  {
    match (sec, s.tick)
    case (TickLook, Idle) => (s.(tick := if s.Enabled(cfg) then Looked else Idle), [])
    case (TickRead, Looked) => (s.(tick := Snapshot(cfg, s, now)), [])
    case (TickSend, Sending(t)) => (s.(tick := Marking(t)), [Apply(GotoGlobal, TargetBody(t))])
    case (TickMark, Marking(t)) =>
      (s.(ctl := s.ctl.(gotoLastSent := Some(now), lastAt := Some(now), lastKind := Some(GotoGlobal)),
          tick := Arriving(t)), [])
    case (TickArrive(gps, dist), Arriving(_)) =>
      (s.(ctl := if Arrived(gps, dist) then s.ctl.(gotoActive := false) else s.ctl, tick := Idle), [])
    case (TickKind, Stale) => (s.(tick := Stopping(FormOf(cfg, s.ctl.lastKind))), [])
    case (TickStop, Stopping(form)) => (s.(lastReissue := Some(now), tick := Flagging), [Stop(form)])
    case (TickFlag, Flagging) => (s.(ctl := s.ctl.(failsafeOn := true), tick := Idle), [])
    case _ => (s, [])
  }

  /** What an iteration does next, from the control state it reads in one lock section. */
  function Snapshot(cfg: Config, s: Split, now: int): TickPc {
    if s.ctl.gotoActive then
      if Elapsed(s.ctl.gotoLastSent, now, GOTO_REISSUE) then Sending(s.ctl.goto) else Arriving(s.ctl.goto)
    else if StopDue(cfg, s.ctl, s.lastReissue, now) then Stale
    else Idle
  }

  function SplitStep(cfg: Config, s: Split, e: Timed): (Split, seq<Output>) {
    match e.sec
    case FrameIn(f) => (s.(link := Vehicle.Receive(cfg.outSysID, cfg.maxStatus, s.link, f)), [])
    case PolicyIn(p) => (s.(policy := Some(p)), [])
    case Receive(k, data) =>
      (if k in s.streams then s else s.(streams := s.streams[k := Probed(CanObey(cfg, s.link), data)]), [])
    case _ =>
      if !e.sec.OfStream() then TickSection(cfg, s, e.now, e.sec)
      else if e.sec.kind in s.streams then StreamSection(cfg, s, e.now, e.sec)
      else (s, [])
  }

  /** One more section, at the same instant. */
  function Then(cfg: Config, p: (Split, seq<Output>), now: int, sec: Section): (Split, seq<Output>) {
    var (s, out) := SplitStep(cfg, p.0, Cut(now, sec));
    (s, if out == [] then p.1 else p.1 + out)
  }

  // ---------- sections run in a row ----------

  /** A tick up to its snapshot. */
  function Begin(cfg: Config, p: (Split, seq<Output>), now: int): (Split, seq<Output>) {
    Then(cfg, Then(cfg, p, now, TickLook), now, TickRead)
  }

  /** The stopping half of a tick. */
  function Halt(cfg: Config, p: (Split, seq<Output>), now: int): (Split, seq<Output>) {
    Then(cfg, Then(cfg, Then(cfg, p, now, TickKind), now, TickStop), now, TickFlag)
  }

  /** All sections of one dead-man iteration; those off its path do nothing. */
  function WholeTick(cfg: Config, s: Split, now: int, gps: Gps, dist: real): (Split, seq<Output>) {
    var p := Then(cfg, Then(cfg, Begin(cfg, (s, []), now), now, TickSend), now, TickMark);
    Halt(cfg, Then(cfg, p, now, TickArrive(gps, dist)), now)
  }

  /** A control message up to the gates, and on to its note. */
  function TakeIn(cfg: Config, p: (Split, seq<Output>), now: int, kind: Kind, data: Payload): (Split, seq<Output>) {
    Then(cfg, Then(cfg, Then(cfg, Then(cfg, p, now, Receive(kind, data)), now, Classify(kind)), now, Decide(kind)),
        now, Note(kind))
  }

  function GiveOut(cfg: Config, p: (Split, seq<Output>), now: int, kind: Kind): (Split, seq<Output>) {
    Then(cfg, Then(cfg, p, now, Send(kind)), now, Mark(kind))
  }

  /** All sections of one control message. */
  function WholeControl(cfg: Config, s: Split, now: int, kind: Kind, data: Payload): (Split, seq<Output>) {
    GiveOut(cfg, TakeIn(cfg, (s, []), now, kind, data), now, kind)
  }

  lemma BeginIs(cfg: Config, s: Split, out: seq<Output>, now: int)
    requires s.tick == Idle
    ensures Begin(cfg, (s, out), now) == (if s.Enabled(cfg) then s.(tick := Snapshot(cfg, s, now)) else s, out)
  {
  }

  lemma HaltIs(cfg: Config, s: Split, out: seq<Output>, now: int)
    ensures s.tick == Stale ==>
              Halt(cfg, (s, out), now) ==
              (s.(ctl := s.ctl.(failsafeOn := true), lastReissue := Some(now), tick := Idle),
               out + [Stop(FormOf(cfg, s.ctl.lastKind))])
    ensures s.tick == Idle ==> Halt(cfg, (s, out), now) == (s, out)
  {
  }

  lemma TakeInIs(cfg: Config, s: Split, out: seq<Output>, now: int, kind: Kind, data: Payload)
    requires kind !in s.streams
    ensures TakeIn(cfg, (s, out), now, kind, data) ==
            (if Accepts(cfg, s.Shared(), kind)
             then s.(ctl := NoteControl(s.ctl, now, kind, data), streams := s.streams[kind := Noted(now, data)])
             else s, out)
  {
    var p1 := Then(cfg, (s, out), now, Receive(kind, data));
    var p2 := Then(cfg, p1, now, Classify(kind));
    var p3 := Then(cfg, p2, now, Decide(kind));
    assert p2.0.streams == s.streams[kind := Typed(CanObey(cfg, s.link), IsAircraft(cfg, s.link), data)];
    if Accepts(cfg, s.Shared(), kind) {
      assert p3.0.streams == s.streams[kind := Gated(now, data)];
      assert Then(cfg, p3, now, Note(kind)).0.streams == s.streams[kind := Noted(now, data)];
    } else {
      assert p3.0.streams == s.streams;
    }
  }

  lemma GiveOutIs(cfg: Config, s: Split, out: seq<Output>, now: int, kind: Kind, t: int, data: Payload)
    ensures s.Stands(kind, Noted(t, data)) ==>
              GiveOut(cfg, (s, out), now, kind) ==
              (s.(ctl := MarkSent(s.ctl, t, kind), streams := s.streams - {kind}), out + [Apply(kind, data)])
    ensures kind !in s.streams ==> GiveOut(cfg, (s, out), now, kind) == (s, out)
  {
    if s.Stands(kind, Noted(t, data)) {
      var p1 := Then(cfg, (s, out), now, Send(kind));
      assert p1.0.streams - {kind} == s.streams - {kind};
    }
  }

  /** Without interference the sections of one iteration add up to the atomic tick. */
  lemma TickRefinesAtomic(cfg: Config, s: Split, now: int, gps: Gps, dist: real)
    requires s.tick == Idle
    ensures var (s', out) := WholeTick(cfg, s, now, gps, dist);
            && (s'.Shared(), out) == OnTick(cfg, s.Shared(), now, gps, dist)
            && s'.tick == Idle && s'.streams == s.streams
  {
    BeginIs(cfg, s, [], now);
    var p := Begin(cfg, (s, []), now);
    var q := Then(cfg, Then(cfg, Then(cfg, p, now, TickSend), now, TickMark), now, TickArrive(gps, dist));
    HaltIs(cfg, q.0, q.1, now);
    match p.0.tick {
      case Sending(t) => assert q.0.tick == Idle && q.1 == [Apply(GotoGlobal, TargetBody(t))];
      case Arriving(_) => assert q.0.tick == Idle && q.1 == [];
      case Stale => assert q == p && [] + [Stop(FormOf(cfg, s.ctl.lastKind))] == [Stop(FormOf(cfg, s.ctl.lastKind))];
      case Idle => assert q == p;
      case _ =>
    }
  }

  /** Without interference the sections of one control message add up to the atomic handler. */
  lemma ControlRefinesAtomic(cfg: Config, s: Split, now: int, kind: Kind, data: Payload)
    requires kind !in s.streams
    ensures var (s', out) := WholeControl(cfg, s, now, kind, data);
            && (s'.Shared(), out) == OnControl(cfg, s.Shared(), now, kind, data)
            && s'.tick == s.tick && s'.streams == s.streams
  {
    TakeInIs(cfg, s, [], now, kind, data);
    var p := TakeIn(cfg, (s, []), now, kind, data);
    GiveOutIs(cfg, p.0, p.1, now, kind, now, data);
    if Accepts(cfg, s.Shared(), kind) {
      assert p.0.streams - {kind} == s.streams;
      assert p.1 + [Apply(kind, data)] == [Apply(kind, data)];
    }
  }

  // ---------- races, all sections at one instant ----------

  /** Race 1: a velocity control lands between the snapshot and the write-back of a stop. The stop
      goes out after the fresh control and raises the flag, so the next deadline is a full
      re-issue period later where that is longer than staleAfter, as it is by default. */
  lemma StrayStopDelaysDeadMan(cfg: Config, s: Split, t: int, data: Payload)
    requires s.tick == Idle && s.Enabled(cfg) && !s.ctl.gotoActive && StopDue(cfg, s.ctl, s.lastReissue, t)
    requires Velocity !in s.streams && Accepts(cfg, s.Shared(), Velocity)
    ensures var s1 := Begin(cfg, (s, []), t).0;
            var (s2, out) := Halt(cfg, WholeControl(cfg, s1, t, Velocity, data), t);
            && out == [Apply(Velocity, data), Stop(VelocityStop)]
            && s2.ctl.lastAt == Some(t) && !s2.ctl.gotoActive
            && var wait := if cfg.ReissueEvery() > cfg.StaleAfter() then cfg.ReissueEvery() else cfg.StaleAfter();
               ControlRuns.Due(cfg, s2.Shared()) == t + wait
  {
    BeginIs(cfg, s, [], t);
    var s1 := Begin(cfg, (s, []), t).0;
    ControlRefinesAtomic(cfg, s1, t, Velocity, data);
    var (s2, out) := WholeControl(cfg, s1, t, Velocity, data);
    HaltIs(cfg, s2, out, t);
  }

  /** Race 2: a new GOTO noted while a tick is checking arrival at the old target is dropped from
      keep-alive although the vehicle was just sent to it. */
  lemma StaleArrivalDropsNewGoto(cfg: Config, s: Split, t: int, data: Payload, gps: Gps, dist: real)
    requires s.tick == Idle && s.Enabled(cfg) && s.ctl.gotoActive && !Elapsed(s.ctl.gotoLastSent, t, GOTO_REISSUE)
    requires GotoGlobal !in s.streams && Accepts(cfg, s.Shared(), GotoGlobal) && Arrived(gps, dist)
    ensures var s1 := Begin(cfg, (s, []), t).0;
            var (s2, out) := Then(cfg, WholeControl(cfg, s1, t, GotoGlobal, data), t, TickArrive(gps, dist));
            out == [Apply(GotoGlobal, data)] && s2.ctl.goto == TargetOf(data) && !s2.ctl.gotoActive
  {
    BeginIs(cfg, s, [], t);
    var s1 := Begin(cfg, (s, []), t).0;
    assert s1 == s.(tick := Arriving(s.ctl.goto));
    ControlRefinesAtomic(cfg, s1, t, GotoGlobal, data);
    var (s2, out) := WholeControl(cfg, s1, t, GotoGlobal, data);
    assert s2.ctl.goto == TargetOf(data) && out == [Apply(GotoGlobal, data)];
    ArriveIs(cfg, s2, out, t, gps, dist);
  }

  lemma ArriveIs(cfg: Config, s: Split, out: seq<Output>, now: int, gps: Gps, dist: real)
    requires s.tick.Arriving? && Arrived(gps, dist)
    ensures Then(cfg, (s, out), now, TickArrive(gps, dist)) ==
            (s.(ctl := s.ctl.(gotoActive := false), tick := Idle), out)
  {
  }

  /** Race 3: a manual control noted while a tick is re-sending is overwritten as "last applied
      GOTO", so the next stop is a velocity stop and not the neutral RC override. */
  lemma StaleMarkChangesStopForm(cfg: Config, s: Split, t: int, data: Payload)
    requires s.tick == Idle && s.Enabled(cfg) && s.ctl.gotoActive && Elapsed(s.ctl.gotoLastSent, t, GOTO_REISSUE)
    requires RcOverride !in s.streams && Accepts(cfg, s.Shared(), RcOverride)
    ensures var s1 := Then(cfg, Begin(cfg, (s, []), t), t, TickSend).0;
            var (s2, out) := WholeControl(cfg, s1, t, RcOverride, data);
            var s3 := Then(cfg, (s2, out), t, TickMark).0;
            && out == [Apply(RcOverride, data)] && !s3.ctl.gotoActive
            && FormOf(cfg, s2.ctl.lastKind).RcStop? && FormOf(cfg, s3.ctl.lastKind) == VelocityStop
  {
    BeginIs(cfg, s, [], t);
    var s1 := Then(cfg, Begin(cfg, (s, []), t), t, TickSend).0;
    assert s1 == s.(tick := Marking(s.ctl.goto));
    ControlRefinesAtomic(cfg, s1, t, RcOverride, data);
    var (s2, out) := WholeControl(cfg, s1, t, RcOverride, data);
    assert s2.ctl == NoteControl(s.ctl, t, RcOverride, data) && out == [Apply(RcOverride, data)];
    MarkIs(cfg, s2, out, t);
  }

  lemma MarkIs(cfg: Config, s: Split, out: seq<Output>, now: int)
    requires s.tick.Marking?
    ensures Then(cfg, (s, out), now, TickMark) ==
            (s.(ctl := s.ctl.(gotoLastSent := Some(now), lastAt := Some(now), lastKind := Some(GotoGlobal)),
                tick := Arriving(s.tick.target)), out)
  {
  }

  /** Race 4: between the note of a GOTO and its mark the stored send time is empty, so a tick that
      runs there sends the target too. Two sends in one instant, from any state. */
  lemma NotedGotoIsSentTwice(cfg: Config, s: Split, t: int, data: Payload)
    requires s.tick == Idle && s.Enabled(cfg)
    requires GotoGlobal !in s.streams && Accepts(cfg, s.Shared(), GotoGlobal)
    ensures var p := Then(cfg, Begin(cfg, TakeIn(cfg, (s, []), t, GotoGlobal, data), t), t, TickSend);
            GiveOut(cfg, p, t, GotoGlobal).1 ==
            [Apply(GotoGlobal, TargetBody(TargetOf(data))), Apply(GotoGlobal, data)]
  {
    TakeInIs(cfg, s, [], t, GotoGlobal, data);
    var (s1, out) := TakeIn(cfg, (s, []), t, GotoGlobal, data);
    BeginIs(cfg, s1, out, t);
    var p := Then(cfg, Begin(cfg, (s1, out), t), t, TickSend);
    assert p.1 == [Apply(GotoGlobal, TargetBody(TargetOf(data)))];
    GiveOutIs(cfg, p.0, p.1, t, GotoGlobal, t, data);
  }

  /** Race 5: the gates are read one after the other, so a command can pass that no instant would
      permit. The vehicle was eligible while the policy still denied; when the policy allows, it
      is eligible no more; the command goes out. */
  lemma PatchworkIsForwarded(cfg: Config, s: Split, t: int, kind: Kind, data: Payload, f: Frame, p: Gate)
    requires kind !in s.streams && CanObey(cfg, s.link) && !Accepts(cfg, s.Shared(), kind)
    requires var l := Vehicle.Receive(cfg.outSysID, cfg.maxStatus, s.link, f);
             !CanObey(cfg, l) && Admitted(cfg, true, IsAircraft(cfg, l), Some(p), kind)
    ensures var p1 := Then(cfg, (s, []), t, Receive(kind, data));
            var p2 := Then(cfg, p1, t, Section.FrameIn(f));
            var p3 := Then(cfg, p2, t, Section.PolicyIn(p));
            var p4 := Then(cfg, p3, t, Classify(kind));
            var p5 := Then(cfg, p4, t, Decide(kind));
            var p6 := Then(cfg, p5, t, Note(kind));
            && !Accepts(cfg, p1.0.Shared(), kind) && !Accepts(cfg, p2.0.Shared(), kind)
            && !Accepts(cfg, p3.0.Shared(), kind) && !Accepts(cfg, p4.0.Shared(), kind)
            && !Accepts(cfg, p5.0.Shared(), kind) && !Accepts(cfg, p6.0.Shared(), kind)
            && GiveOut(cfg, p6, t, kind).1 == [Apply(kind, data)]
  {
    var p1 := Then(cfg, (s, []), t, Receive(kind, data));
    var p2 := Then(cfg, p1, t, Section.FrameIn(f));
    var p3 := Then(cfg, p2, t, Section.PolicyIn(p));
    assert p3.0.Stands(kind, Probed(true, data)) && p3.1 == [];
    var p4 := Then(cfg, p3, t, Classify(kind));
    assert p4.0.Stands(kind, Typed(true, IsAircraft(cfg, p3.0.link), data)) && p4.1 == [];
    var p5 := Then(cfg, p4, t, Decide(kind));
    assert p5.0.Stands(kind, Gated(t, data)) && p5.1 == [];
    var p6 := Then(cfg, p5, t, Note(kind));
    assert p6.0.Stands(kind, Noted(t, data)) && p6.1 == [];
    GiveOutIs(cfg, p6.0, p6.1, t, kind, t, data);
  }
}
