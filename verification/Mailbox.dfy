/** The capacity-1 room channel between the command handler of pkg/stomp/session.go and the video
    supervisor of cmd/mavagent/main.go. The newest room id wins. */
module Mailbox {
  import opened Common

  /** Where the only producer stands while enqueueing v. */
  datatype Pc = Waiting | Trying(v: int) | Draining(v: int) | Retrying(v: int)

  // channel holds at most one value; enqueued, consumed and dropped are histories.
  datatype Box = Box(channel: Option<int>, pc: Pc, enqueued: seq<int>, consumed: seq<int>, dropped: seq<int>)

  const EMPTY := Box(None, Waiting, [], [], [])

  datatype Event =
    | Enqueue(v: int)   // enqueueLatestRoomID is called
    | Produce           // the producer takes its next channel operation
    | Consume           // the supervisor receives, if there is something to receive

  function Step(b: Box, e: Event): Box {
    match (e, b.pc)
    case (Enqueue(v), Waiting) => b.(pc := Trying(v), enqueued := b.enqueued + [v])
    case (Produce, Trying(v)) =>
      if b.channel.None? then b.(channel := Some(v), pc := Waiting) else b.(pc := Draining(v))
    case (Produce, Draining(v)) =>
      if b.channel.Some? then b.(channel := None) else b.(pc := Retrying(v))
    case (Produce, Retrying(v)) =>
      if b.channel.None? then b.(channel := Some(v), pc := Waiting) else b.(pc := Waiting, dropped := b.dropped + [v])
    case (Consume, _) =>
      if b.channel.Some? then b.(channel := None, consumed := b.consumed + [b.channel.value]) else b
    case _ => b
  }

  function Run(es: seq<Event>): Box {
    if es == [] then EMPTY else Step(Run(es[..|es| - 1]), es[|es| - 1])
  }

  /** a can be obtained from b by deleting entries. */
  ghost predicate Subsequence(a: seq<int>, b: seq<int>) {
    if a == [] then true
    else if b == [] then false
    else (a[|a| - 1] == b[|b| - 1] && Subsequence(a[..|a| - 1], b[..|b| - 1])) || Subsequence(a, b[..|b| - 1])
  }

  lemma SubsequenceGrows(a: seq<int>, b: seq<int>, v: int)
    requires Subsequence(a, b)
    ensures Subsequence(a, b + [v]) && Subsequence(a + [v], b + [v])
  {
    assert (a + [v])[..|a|] == a && (b + [v])[..|b|] == b;
  }

  lemma {:induction false} SubsequenceShrinks(a: seq<int>, v: int, b: seq<int>)
    requires Subsequence(a + [v], b)
    ensures Subsequence(a, b)
  {
    if b != [] {
      var c := b[..|b| - 1];
      assert (a + [v])[..|a|] == a && c + [b[|b| - 1]] == b;
      if !Subsequence(a, c) {
        SubsequenceShrinks(a, v, c);
      }
      SubsequenceGrows(a, c, b[|b| - 1]);
    }
  }

  function Pending(b: Box): seq<int> {
    if b.channel.Some? then [b.channel.value] else []
  }

  function Last(s: seq<int>): int
    requires s != []
  {
    s[|s| - 1]
  }

  /** Everything enqueued except the value the producer is still holding. */
  function Offered(b: Box): seq<int> {
    if b.pc == Waiting || b.enqueued == [] then b.enqueued else b.enqueued[..|b.enqueued| - 1]
  }

  ghost predicate BoxOk(b: Box) {
    && b.dropped == []
    && (b.pc.Retrying? ==> b.channel.None?)
    && (!b.pc.Waiting? ==> b.enqueued != [] && Last(b.enqueued) == b.pc.v)
    && Subsequence(b.consumed + Pending(b), Offered(b))
    && (b.pc.Waiting? && b.enqueued != [] ==>
          var got := b.consumed + Pending(b); got != [] && Last(got) == Last(b.enqueued))
  }

  lemma EnqueueKeepsBox(b: Box, v: int)
    requires BoxOk(b)
    ensures BoxOk(Step(b, Enqueue(v)))
  {
    assert (b.enqueued + [v])[..|b.enqueued|] == b.enqueued;
  }

  lemma ConsumeKeepsBox(b: Box)
    requires BoxOk(b)
    ensures BoxOk(Step(b, Consume))
  {
    if b.channel.Some? {
      assert b.consumed + [b.channel.value] + [] == b.consumed + [b.channel.value];
    }
  }

  lemma ProduceKeepsBox(b: Box)
    requires BoxOk(b)
    ensures BoxOk(Step(b, Produce))
  {
    if !b.pc.Waiting? {
      var v := b.pc.v;
      assert Offered(b) + [v] == b.enqueued;
      if b.channel.None? {
        assert b.consumed + [] == b.consumed;
        SubsequenceGrows(b.consumed, Offered(b), v);
      } else {
        SubsequenceShrinks(b.consumed, b.channel.value, Offered(b));
        assert b.consumed + [] == b.consumed;
      }
    }
  }

  /** Under every interleaving of the producer with the supervisor: nothing is ever dropped by the
      full-after-drain branch, received values are a subsequence of the enqueued ones, and once an
      enqueue has returned, the newest value is in the channel or was the last one consumed. */
  lemma {:induction false} MailboxAlwaysOk(es: seq<Event>)
    ensures BoxOk(Run(es))
  {
    if es != [] {
      var b, e := Run(es[..|es| - 1]), es[|es| - 1];
      MailboxAlwaysOk(es[..|es| - 1]);
      match e {
        case Enqueue(v) => EnqueueKeepsBox(b, v);
        case Produce => ProduceKeepsBox(b);
        case Consume => ConsumeKeepsBox(b);
      }
    }
  }

  // ---------- the supervisor ----------

  /** One received room id; running is whatever the stream manager reports at that moment, starts
      whether it would start a pipeline for the room. */
  function Supervise(current: int, running: bool, room: int, starts: bool): int {
    if room <= 0 then 0
    else if running && current == room then current
    else if !starts then current
    else room
  }

  /** All received ids in order; ok says which rooms can be started. */
  function SuperviseAll(rooms: seq<int>, running: seq<bool>, ok: int -> bool): int
    requires |running| >= |rooms|
  {
    if rooms == [] then 0
    else
      var n := |rooms| - 1;
      Supervise(SuperviseAll(rooms[..n], running, ok), running[n], rooms[n], ok(rooms[n]))
  }

  /** A command that takes effect: a stop, or a room that starts. */
  predicate Takes(room: int, ok: int -> bool) {
    room <= 0 || ok(room)
  }

  /** The room of the last command that takes effect, 0 for a stop or none. */
  function LastGood(rooms: seq<int>, ok: int -> bool): int {
    if rooms == [] then 0
    else
      var v := Last(rooms);
      if Takes(v, ok) then (if v <= 0 then 0 else v) else LastGood(rooms[..|rooms| - 1], ok)
  }

  /** Whatever the manager reports as running, the supervisor is in the room of the last command
      that takes effect. */
  lemma {:induction false} SupervisorIsInLastGood(rooms: seq<int>, running: seq<bool>, ok: int -> bool)
    requires |running| >= |rooms|
    ensures SuperviseAll(rooms, running, ok) == LastGood(rooms, ok)
  {
    if rooms != [] {
      SupervisorIsInLastGood(rooms[..|rooms| - 1], running, ok);
    }
  }

  /** The events end with these commands enqueued and everything offered consumed. */
  ghost predicate Settles(es: seq<Event>, rooms: seq<int>) {
    var b := Run(es);
    b.pc.Waiting? && b.channel.None? && b.enqueued == rooms
  }

  /** No room among these commands can be started. */
  predicate NoneStarts(rooms: seq<int>, ok: int -> bool) {
    forall i: nat | i < |rooms| :: rooms[i] <= 0 || !ok(rooms[i])
  }

  /** Some interleaving shows: what was received leaves another room than the full list would. */
  ghost predicate CoalescingShows(rooms: seq<int>, ok: int -> bool) {
    exists es :: Settles(es, rooms) && LastGood(Run(es).consumed, ok) != LastGood(rooms, ok)
  }

  /** Coalescing is invisible under every interleaving exactly when the newest command takes
      effect or none of the rooms could be started; otherwise an older room that would have
      started can be overwritten by a newer one that fails. */
  lemma CoalescingIsInvisibleIff(rooms: seq<int>, ok: int -> bool)
    ensures !CoalescingShows(rooms, ok) <==> rooms == [] || Takes(Last(rooms), ok) || NoneStarts(rooms, ok)
  {
    forall es | Settles(es, rooms) && (rooms == [] || Takes(Last(rooms), ok) || NoneStarts(rooms, ok))
      ensures LastGood(Run(es).consumed, ok) == LastGood(rooms, ok)
    {
      SettledAgrees(es, rooms, ok);
    }
    if rooms != [] && !Takes(Last(rooms), ok) && !NoneStarts(rooms, ok) {
      var i: nat :| i < |rooms| && rooms[i] > 0 && ok(rooms[i]);
      SomethingShows(rooms, ok, i);
    }
  }

  lemma SettledAgrees(es: seq<Event>, rooms: seq<int>, ok: int -> bool)
    requires Settles(es, rooms) && (rooms == [] || Takes(Last(rooms), ok) || NoneStarts(rooms, ok))
    ensures LastGood(Run(es).consumed, ok) == LastGood(rooms, ok)
  {
    MailboxAlwaysOk(es);
    var b := Run(es);
    assert b.consumed + [] == b.consumed;
    if rooms == [] {
      assert b.consumed == [];
    } else if !Takes(Last(rooms), ok) {
      SubsequenceStartsNone(b.consumed, rooms, ok);
      NoneStartsIsNoRoom(b.consumed, ok);
      NoneStartsIsNoRoom(rooms, ok);
    }
  }

  lemma {:induction false} NoneStartsIsNoRoom(rooms: seq<int>, ok: int -> bool)
    requires NoneStarts(rooms, ok)
    ensures LastGood(rooms, ok) == 0
  {
    if rooms != [] {
      NoneStartsIsNoRoom(rooms[..|rooms| - 1], ok);
    }
  }

  lemma {:induction false} SubsequenceStartsNone(a: seq<int>, b: seq<int>, ok: int -> bool)
    requires Subsequence(a, b) && NoneStarts(b, ok)
    ensures NoneStarts(a, ok)
  {
    if a != [] && b != [] {
      var n := |a| - 1;
      if a[n] == b[|b| - 1] && Subsequence(a[..n], b[..|b| - 1]) {
        SubsequenceStartsNone(a[..n], b[..|b| - 1], ok);
        assert forall i: nat | i < n :: a[i] == a[..n][i];
      } else {
        SubsequenceStartsNone(a, b[..|b| - 1], ok);
      }
    }
  }

  // ---------- any selection that ends with the newest command can be what is received ----------

  /** The commands enqueued one by one, each offered at once, and received where keep says so. */
  function Script(rooms: seq<int>, keep: nat -> bool): seq<Event> {
    if rooms == [] then []
    else
      var n := |rooms| - 1;
      Script(rooms[..n], keep) + [Enqueue(rooms[n]), Produce, Produce, Produce, Produce]
      + (if keep(n) then [Consume] else [])
  }

  function Kept(rooms: seq<int>, keep: nat -> bool): seq<int> {
    if rooms == [] then []
    else
      var n := |rooms| - 1;
      Kept(rooms[..n], keep) + (if keep(n) then [rooms[n]] else [])
  }

  lemma RunThen(es: seq<Event>, e: Event)
    ensures Run(es + [e]) == Step(Run(es), e)
  {
    assert (es + [e])[..|es|] == es;
  }

  lemma Offer(es: seq<Event>, v: int)
    requires Run(es).pc.Waiting?
    ensures var b, b' := Run(es), Run(es + [Enqueue(v), Produce, Produce, Produce, Produce]);
            b' == b.(channel := Some(v), enqueued := b.enqueued + [v])
  {
    var e1 := es + [Enqueue(v)];
    var e2, e3, e4 := e1 + [Produce], e1 + [Produce] + [Produce], e1 + [Produce] + [Produce] + [Produce];
    RunThen(es, Enqueue(v));
    RunThen(e1, Produce);
    RunThen(e2, Produce);
    RunThen(e3, Produce);
    RunThen(e4, Produce);
    assert es + [Enqueue(v), Produce, Produce, Produce, Produce] == e4 + [Produce];
  }

  lemma {:induction false} ScriptRuns(rooms: seq<int>, keep: nat -> bool)
    ensures var b := Run(Script(rooms, keep));
            && b.pc.Waiting? && b.enqueued == rooms && b.consumed == Kept(rooms, keep)
            && b.channel == if rooms == [] || keep(|rooms| - 1) then None else Some(Last(rooms))
  {
    if rooms != [] {
      var n := |rooms| - 1;
      var es := Script(rooms[..n], keep);
      ScriptRuns(rooms[..n], keep);
      Offer(es, rooms[n]);
      var es' := es + [Enqueue(rooms[n]), Produce, Produce, Produce, Produce];
      RunThen(es', Consume);
      assert es' + [] == es' && rooms[..n] + [rooms[n]] == rooms;
      assert Kept(rooms[..n], keep) + [] == Kept(rooms[..n], keep);
    }
  }

  lemma {:induction false} KeptNothing(rooms: seq<int>, keep: nat -> bool)
    requires forall k: nat | k < |rooms| :: !keep(k)
    ensures Kept(rooms, keep) == []
  {
    if rooms != [] {
      KeptNothing(rooms[..|rooms| - 1], keep);
    }
  }

  lemma {:induction false} KeptJust(rooms: seq<int>, keep: nat -> bool, i: nat)
    requires i < |rooms| && forall k: nat | k < |rooms| :: keep(k) <==> k == i
    ensures Kept(rooms, keep) == [rooms[i]]
  {
    var n := |rooms| - 1;
    if i == n {
      KeptNothing(rooms[..n], keep);
    } else {
      KeptJust(rooms[..n], keep, i);
    }
  }

  lemma NewestAlone(rooms: seq<int>) returns (es: seq<Event>)
    requires rooms != []
    ensures Settles(es, rooms) && Run(es).consumed == [Last(rooms)]
  {
    var n := |rooms| - 1;
    var keep := (k: nat) => k == n;
    es := Script(rooms, keep);
    ScriptRuns(rooms, keep);
    KeptJust(rooms, keep, n);
  }

  lemma OneAndNewest(rooms: seq<int>, i: nat) returns (es: seq<Event>)
    requires i < |rooms| - 1
    ensures Settles(es, rooms) && Run(es).consumed == [rooms[i], Last(rooms)]
  {
    var n := |rooms| - 1;
    var keep := (k: nat) => k == i || k == n;
    es := Script(rooms, keep);
    ScriptRuns(rooms, keep);
    KeptJust(rooms[..n], keep, i);
  }

  /** The newest command fails and room i would have started: receiving the newest command alone
      leaves no room, receiving room i before it leaves room i. */
  lemma SomethingShows(rooms: seq<int>, ok: int -> bool, i: nat)
    requires i < |rooms| && rooms[i] > 0 && ok(rooms[i]) && !Takes(Last(rooms), ok)
    ensures CoalescingShows(rooms, ok)
  {
    var last := Last(rooms);
    var es1 := NewestAlone(rooms);
    var es2 := OneAndNewest(rooms, i);
    assert [last][..0] == [] && [rooms[i], last][..1] == [rooms[i]];
    assert LastGood([last], ok) == 0;
    assert LastGood([rooms[i]], ok) == rooms[i];
    assert LastGood([rooms[i], last], ok) == LastGood([rooms[i], last][..1], ok);
  }

  class RoomChannel {
    var slot: Option<int>

    method TrySend(v: int) returns (ok: bool)
      modifies this
      ensures ok == old(slot).None? && slot == (if ok then Some(v) else old(slot))
    {
      ok := slot.None?;
      if ok {
        slot := Some(v);
      }
    }

    method Drain()
      modifies this
      ensures slot.None?
    {
      while slot.Some?
        decreases if slot.Some? then 1 else 0
      {
        slot := None;
      }
    }

    /** enqueueLatestRoomID with no receiver in between. */
    method EnqueueLatest(v: int)
      modifies this
      ensures slot == Some(v)
    {
      var ok := TrySend(v);
      if ok {
        return;
      }
      Drain();
      ok := TrySend(v);
    }
  }
}
