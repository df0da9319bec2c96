/** The TTL-driven refresh of ICE credentials in cmd/mavagent/main.go. */
module IceRefresh {
  import opened Common

  const DEFAULT_TTL := 900
  const FLOOR := 60 * SECOND

  /** The five fields the refresher compares. */
  datatype Creds = Creds(stun: string, turn: string, user: string, pass: string, forceRelay: bool)

  datatype Ice = Ice(creds: Creds, ttl: int)

  /** The loop's delay before the next refresh, in 64-bit arithmetic. */
  method RefreshIn(ttlSeconds: int) returns (refreshIn: int)
    requires -TWO_63 <= ttlSeconds <= MAX_INT64
    ensures refreshIn == Delay(ttlSeconds)
  {
    var ttl := ttlSeconds;
    if ttl <= 0 {
      ttl := 900;
    }
    refreshIn := TruncDiv(Wrap64(Wrap64(ttl * SECOND) * 8), 10);
    var minBeforeExpiry := Wrap64((ttl - 60) * SECOND);
    if minBeforeExpiry < FLOOR {
      minBeforeExpiry := FLOOR;
    }
    if refreshIn > minBeforeExpiry {
      refreshIn := minBeforeExpiry;
    }
    if refreshIn < FLOOR {
      refreshIn := FLOOR;
    }
  }

  function Ttl(ttlSeconds: int): int {
    if ttlSeconds <= 0 then DEFAULT_TTL else ttlSeconds
  }

  function AtLeast(x: int, bound: int): int {
    if x < bound then bound else x
  }

  function Delay(ttlSeconds: int): int {
    var ttl := Ttl(ttlSeconds);
    var eighty := TruncDiv(Wrap64(Wrap64(ttl * SECOND) * 8), 10);
    var beforeExpiry := AtLeast(Wrap64((ttl - 60) * SECOND), FLOOR);
    AtLeast(if eighty > beforeExpiry then beforeExpiry else eighty, FLOOR)
  }

  /** The delay is at least a minute and comes before expiry exactly when the credentials live
      longer than a minute; from two minutes of life on it keeps a minute in hand and is at most
      80% of the lifetime. All of it holds for every 64-bit TTL, wrap-around included. */
  lemma DelayFits(ttlSeconds: int)
    requires -TWO_63 <= ttlSeconds <= MAX_INT64
    ensures var d, ttl := Delay(ttlSeconds), Ttl(ttlSeconds);
            && d >= FLOOR
            && (d < ttl * SECOND <==> ttl > 60)
            && (ttl >= 120 ==> d <= (ttl - 60) * SECOND && 10 * d <= 8 * ttl * SECOND)
    ensures ttlSeconds <= 0 ==> Delay(ttlSeconds) == 720_000_000_000
    ensures 0 < ttlSeconds <= 120 ==> Delay(ttlSeconds) == 60_000_000_000
    ensures 120 < ttlSeconds <= 300 ==> Delay(ttlSeconds) == (ttlSeconds - 60) * 1_000_000_000
    ensures 300 < ttlSeconds <= 1_000_000_000 ==> Delay(ttlSeconds) == ttlSeconds * 800_000_000
  {
    var ttl := Ttl(ttlSeconds);
    WrapRange(ttl * SECOND);
    WrapRange(Wrap64(ttl * SECOND) * 8);
    WrapRange((ttl - 60) * SECOND);
  }

  // Three years: no margin that matters is longer.
  const LONG := 100_000_000 * SECOND

  /** The lifetime that leaves a margin m: up to a minute the floor of the delay decides, beyond
      that the 80% rule does. */
  function Needed(m: int): int {
    if m < FLOOR then FLOOR + m else 5 * m
  }

  /** What the delay leaves of the lifetime: more than m exactly for lifetimes above Needed(m). */
  lemma SlackIff(ttlSeconds: int, m: int)
    requires -TWO_63 <= ttlSeconds <= MAX_INT64 && 0 <= m < LONG
    ensures Delay(ttlSeconds) + m < Ttl(ttlSeconds) * SECOND <==> Ttl(ttlSeconds) * SECOND > Needed(m)
  {
    var ttl := Ttl(ttlSeconds);
    DelayFits(ttlSeconds);
    WrapRange((ttl - 60) * SECOND);
    WrapRange(ttl * SECOND);
    WrapRange(Wrap64(ttl * SECOND) * 8);
  }

  // ---------- runs ----------

  /** One turn of the loop: the backend's answer, issued offset after the request left and applied
      latency after it, and how long applying it then holds the loop. */
  datatype Cycle = Cycle(answer: Ice, offset: int, latency: int, hold: int)

  /** A run: the answer fetched before the loop started, when it was issued, and the turns since. */
  datatype Schedule = Schedule(first: Ice, issued: int, start: int, cycles: seq<Cycle>) {
    function Answer(k: nat): Ice
      requires k <= |cycles|
    {
      if k == 0 then first else cycles[k - 1].answer
    }

    /** Turn k begins. */
    function Top(k: nat): int
      requires k <= |cycles|
      decreases k, 0
    {
      if k == 0 then start else Arrival(k - 1) + cycles[k - 1].hold
    }

    /** Its request leaves, after the delay the loop computes from the answer it holds. */
    function Request(k: nat): int
      requires k <= |cycles|
      decreases k, 1
    {
      Top(k) + Delay(Answer(k).ttl)
    }

    /** Its answer arrives and is applied. */
    function Arrival(k: nat): int
      requires k < |cycles|
      decreases k, 2
    {
      Request(k) + cycles[k].latency
    }

    /** When the credentials of answer k were issued, and when they were applied. */
    function Issued(k: nat): int
      requires k <= |cycles|
    {
      if k == 0 then issued else Request(k - 1) + cycles[k - 1].offset
    }

    function AppliedAt(k: nat): int
      requires k <= |cycles|
    {
      if k == 0 then start else Arrival(k - 1)
    }

    /** What the stream manager holds then: SetICE is called only when one of the five fields
        changed. */
    function Applied(k: nat): Creds
      requires k <= |cycles|
    {
      if k == 0 then first.creds
      else if Answer(k).creds != Answer(k - 1).creds then Answer(k).creds
      else Applied(k - 1)
    }

    /** Requests are answered within latency and applying takes at most hold. */
    predicate Prompt(latency: int, hold: int) {
      forall c | c in cycles :: 0 <= c.offset <= c.latency <= latency && 0 <= c.hold <= hold
    }

    /** The age a credential may have when it is replaced, beyond the delay itself. */
    function Margin(k: nat, latency: int, hold: int): int {
      (if k == 0 then start - issued else latency + hold) + latency
    }

    /** Answer k has a 64-bit lifetime that is long enough for the margin. */
    predicate LivesLongEnough(k: nat, latency: int, hold: int)
      requires k <= |cycles|
    {
      && -TWO_63 <= Answer(k).ttl <= MAX_INT64
      && 0 <= Margin(k, latency, hold) < LONG
      && Ttl(Answer(k).ttl) * SECOND > Needed(Margin(k, latency, hold))
    }

    /** Answer k is still alive when the next one is applied. */
    predicate Alive(k: nat)
      requires k < |cycles|
    {
      Arrival(k) < Issued(k) + Ttl(Answer(k).ttl) * SECOND
    }
  }

  /** Skipping unchanged answers loses nothing: the stream always holds the latest credentials. */
  lemma {:induction false} AppliedIsLatest(s: Schedule, k: nat)
    requires k <= |s.cycles|
    ensures s.Applied(k) == s.Answer(k).creds
  {
    if k > 0 {
      AppliedIsLatest(s, k - 1);
    }
  }

  /** The age an answer has when its turn begins. */
  lemma AgeAtTop(s: Schedule, k: nat)
    requires k <= |s.cycles|
    ensures s.Top(k) - s.Issued(k) ==
            if k == 0 then s.start - s.issued
            else s.cycles[k - 1].latency - s.cycles[k - 1].offset + s.cycles[k - 1].hold
  {
  }

  lemma AgeAtReplacement(s: Schedule, k: nat, latency: int, hold: int)
    requires s.Prompt(latency, hold) && k < |s.cycles|
    ensures s.Arrival(k) - s.Issued(k) <= Delay(s.Answer(k).ttl) + s.Margin(k, latency, hold)
  {
    AgeAtTop(s, k);
    ThisTurn(s, k, latency, hold);
    if k > 0 {
      ThisTurn(s, k - 1, latency, hold);
    }
  }

  lemma ThisTurn(s: Schedule, k: nat, latency: int, hold: int)
    requires s.Prompt(latency, hold) && k < |s.cycles|
    ensures var c := s.cycles[k]; 0 <= c.offset <= c.latency <= latency && 0 <= c.hold <= hold
  {
    assert s.cycles[k] in s.cycles;
  }

  lemma {:induction false} InSomeTurn(s: Schedule, n: nat, t: int) returns (k: nat)
    requires 0 < n <= |s.cycles| && s.start <= t <= s.Arrival(n - 1)
    ensures k < n && s.AppliedAt(k) <= t <= s.Arrival(k)
  {
    k := n - 1;
    if k > 0 && t <= s.Arrival(k - 1) {
      k := InSomeTurn(s, k, t);
    }
  }

  /** No expired credentials, over any run of the loop at the times the loop itself sets: if every
      request is answered within latency, applying holds the loop for at most hold, and every
      answer lives longer than the margin these make needs, then at every instant the
      stream holds the latest answer's credentials, and they have not outlived their issue by
      their lifetime. */
  lemma NeverExpired(s: Schedule, latency: int, hold: int, t: int) returns (k: nat)
    requires s.cycles != [] && s.Prompt(latency, hold)
    requires forall i: nat | i < |s.cycles| :: s.LivesLongEnough(i, latency, hold)
    requires s.start <= t <= s.Arrival(|s.cycles| - 1)
    ensures k < |s.cycles| && s.AppliedAt(k) <= t <= s.Arrival(k)
    ensures s.Applied(k) == s.Answer(k).creds && t < s.Issued(k) + Ttl(s.Answer(k).ttl) * SECOND
  {
    k := InSomeTurn(s, |s.cycles|, t);
    AppliedIsLatest(s, k);
    AgeAtReplacement(s, k, latency, hold);
    assert s.LivesLongEnough(k, latency, hold);
    SlackIff(s.Answer(k).ttl, s.Margin(k, latency, hold));
  }

  /** The bound is exact: an answer of the loop's own is alive when replaced in every prompt run
      if and only if it lives longer than two latencies and a hold need: a minute more while they
      are below a minute, five times as long from there on. With the 6 s limit of the HTTP client
      and nothing to restart that is 72 s. */
  lemma AlwaysAliveIff(ttl: int, latency: int, hold: int)
    requires -TWO_63 <= ttl <= MAX_INT64 && 0 <= latency && 0 <= hold && 2 * latency + hold < LONG
    ensures (forall s: Schedule, k: nat | s.Prompt(latency, hold) && 0 < k < |s.cycles| && s.Answer(k).ttl == ttl ::
               s.Alive(k)) <==> Ttl(ttl) * SECOND > Needed(2 * latency + hold)
  {
    SlackIff(ttl, 2 * latency + hold);
    forall s: Schedule, k: nat | s.Prompt(latency, hold) && 0 < k < |s.cycles| && s.Answer(k).ttl == ttl
      ensures Ttl(ttl) * SECOND > Needed(2 * latency + hold) ==> s.Alive(k)
    {
      AgeAtReplacement(s, k, latency, hold);
    }
    var ice := Ice(Creds("", "", "", "", false), ttl);
    var slow := Schedule(ice, 0, 0, [Cycle(ice, 0, latency, hold), Cycle(ice, 0, latency, hold)]);
    assert slow.Prompt(latency, hold) && slow.Answer(1).ttl == ttl;
    assert slow.Arrival(1) - slow.Issued(1) == Delay(ttl) + 2 * latency + hold;
  }
}
