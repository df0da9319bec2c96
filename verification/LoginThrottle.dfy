/** The re-login throttle in the reconnect loop of pkg/stomp/session.go, with the rate-limit
    answers parsed in pkg/auth/auth.go. */
module LoginThrottle {
  import opened Common

  const COOLDOWN := 120 * SECOND
  const FALLBACK_WAIT := 900 * SECOND
  const MAX_SECONDS := 9_223_372_036

  // How a login attempt ends; a rate limit carries the parsed wait and the instant it is noted.
  datatype LoginResult = LoggedIn | LoginFailed | RateLimited(wait: int, noticed: int)

  /** One turn of the loop: a handshake refused with 401 or 403, or anything else. login is what
      auth.Login would answer if it were called. */
  datatype Turn = Refused(now: int, login: LoginResult) | Other(now: int)

  datatype Throttle = Throttle(lastRefresh: Option<int>, limitedUntil: Option<int>)

  predicate MayLogin(t: Throttle, now: int) {
    && (t.limitedUntil.None? || now >= t.limitedUntil.value)
    && Elapsed(t.lastRefresh, now, COOLDOWN)
  }

  predicate Attempts(t: Throttle, turn: Turn) {
    turn.Refused? && MayLogin(t, turn.now)
  }

  function Step(t: Throttle, turn: Turn): Throttle {
    if !Attempts(t, turn) then t
    else Throttle(Some(turn.now),
                  if turn.login.RateLimited? then Some(turn.login.noticed + turn.login.wait) else t.limitedUntil)
  }

  function Run(turns: seq<Turn>): Throttle {
    if turns == [] then Throttle(None, None) else Step(Run(turns[..|turns| - 1]), turns[|turns| - 1])
  }

  predicate AttemptAt(turns: seq<Turn>, i: nat) {
    i < |turns| && Attempts(Run(turns[..i]), turns[i])
  }

  // ---------- the loop itself ----------

  /** The loop over the given turns; returns the instants at which auth.Login was called. */
  method Start(turns: seq<Turn>) returns (logins: seq<int>)
    ensures logins == AttemptTimes(turns)
  {
    var lastTokenRefresh: Option<int>, rateLimitedUntil: Option<int> := None, None;
    logins := [];
    for i := 0 to |turns|
      invariant Throttle(lastTokenRefresh, rateLimitedUntil) == Run(turns[..i])
      invariant logins == AttemptTimes(turns[..i])
    {
      assert turns[..i + 1][..i] == turns[..i];
      if turns[i].Refused? {
        var now := turns[i].now;
        if rateLimitedUntil.Some? && now < rateLimitedUntil.value {
          continue;
        }
        if lastTokenRefresh.Some? && now - lastTokenRefresh.value < COOLDOWN {
          continue;
        }
        lastTokenRefresh := Some(now);
        logins := logins + [now];
        if turns[i].login.RateLimited? {
          rateLimitedUntil := Some(turns[i].login.noticed + turns[i].login.wait);
        }
      }
    }
    assert turns[..|turns|] == turns;
  }

  function AttemptTimes(turns: seq<Turn>): seq<int> {
    if turns == [] then []
    else
      var n := |turns| - 1;
      AttemptTimes(turns[..n]) + (if Attempts(Run(turns[..n]), turns[n]) then [turns[n].now] else [])
  }

  // ---------- spacing ----------

  predicate SpacedBy(ts: seq<int>, gap: int) {
    forall i | 0 < i < |ts| :: ts[i] - ts[i - 1] >= gap
  }

  /** Consecutive re-logins are at least two minutes apart, across any number of reconnects. */
  lemma {:induction false} LoginsAreSpaced(turns: seq<Turn>)
    ensures SpacedBy(AttemptTimes(turns), 120_000_000_000)
    ensures var ts := AttemptTimes(turns);
            Run(turns).lastRefresh == if ts == [] then None else Some(ts[|ts| - 1])
  {
    if turns != [] {
      LoginsAreSpaced(turns[..|turns| - 1]);
    }
  }

  lemma {:induction false} SpreadOut(ts: seq<int>, i: nat, j: nat)
    requires SpacedBy(ts, COOLDOWN) && i <= j < |ts|
    ensures ts[j] - ts[i] >= (j - i) * COOLDOWN
  {
    if i < j {
      SpreadOut(ts, i, j - 1);
    }
  }

  /** Any window of length w holds at most floor(w / 120 s) + 1 attempts: entries i to j of the
      attempt list cannot all lie in it if there are more. */
  lemma WindowBound(turns: seq<Turn>, from: int, w: nat, i: nat, j: nat)
    requires var ts := AttemptTimes(turns);
             i <= j < |ts| && from <= ts[i] && ts[j] <= from + w
    ensures j - i + 1 <= w / 120_000_000_000 + 1
  {
    LoginsAreSpaced(turns);
    SpreadOut(AttemptTimes(turns), i, j);
  }

  /** Every rate limit is honoured: after one was answered at attempt i, no later attempt is made
      before it ends, even if a shorter one was answered in between. */
  lemma RateLimitIsHonoured(turns: seq<Turn>, i: nat, j: nat)
    requires i < j && AttemptAt(turns, i) && AttemptAt(turns, j) && turns[i].login.RateLimited?
    ensures turns[j].now >= turns[i].login.noticed + turns[i].login.wait
  {
    LimitStandsOrIsOver(turns, i, j);
  }

  /** The loop still remembers the limit, or it has attempted another login since the limit ended. */
  lemma {:induction false} LimitStandsOrIsOver(turns: seq<Turn>, i: nat, j: nat)
    requires i < j <= |turns| && AttemptAt(turns, i) && turns[i].login.RateLimited?
    ensures var t, until := Run(turns[..j]), turns[i].login.noticed + turns[i].login.wait;
            t.limitedUntil == Some(until) || (t.lastRefresh.Some? && t.lastRefresh.value >= until)
  {
    assert turns[..j][..j - 1] == turns[..j - 1];
    if i < j - 1 {
      LimitStandsOrIsOver(turns, i, j - 1);
    }
  }

  /** Attempt i is the latest before turn j, and the latest that was rate-limited. */
  predicate LatestAttempt(turns: seq<Turn>, i: nat, j: nat) {
    i < j <= |turns| && AttemptAt(turns, i) && forall k: nat | i < k < j :: !AttemptAt(turns, k)
  }

  predicate Limited(turns: seq<Turn>, i: nat) {
    AttemptAt(turns, i) && turns[i].login.RateLimited?
  }

  predicate LatestLimited(turns: seq<Turn>, i: nat, j: nat) {
    i < j <= |turns| && Limited(turns, i) && forall k: nat | i < k < j :: !Limited(turns, k)
  }

  /** What the loop remembers is what the latest attempts say. */
  lemma {:induction false} ThrottleFollows(turns: seq<Turn>, j: nat)
    requires j <= |turns|
    ensures var t := Run(turns[..j]);
            && (forall i: nat | LatestAttempt(turns, i, j) :: t.lastRefresh == Some(turns[i].now))
            && (t.lastRefresh.Some? ==> exists i: nat :: LatestAttempt(turns, i, j))
            && (forall i: nat | LatestLimited(turns, i, j) ::
                  t.limitedUntil == Some(turns[i].login.noticed + turns[i].login.wait))
            && (t.limitedUntil.Some? ==> exists i: nat :: LatestLimited(turns, i, j))
  {
    if j > 0 {
      var n := j - 1;
      ThrottleFollows(turns, n);
      assert turns[..j][..n] == turns[..n];
      LatestStep(turns, j);
      if AttemptAt(turns, n) {
        assert LatestAttempt(turns, n, j);
      } else if i: nat :| LatestAttempt(turns, i, n) {
        assert LatestAttempt(turns, i, j);
      }
      if Limited(turns, n) {
        assert LatestLimited(turns, n, j);
      } else if i: nat :| LatestLimited(turns, i, n) {
        assert LatestLimited(turns, i, j);
      }
    }
  }

  lemma LatestStep(turns: seq<Turn>, j: nat)
    requires 0 < j <= |turns|
    ensures forall i: nat :: LatestAttempt(turns, i, j) <==>
              if AttemptAt(turns, j - 1) then i == j - 1 else LatestAttempt(turns, i, j - 1)
    ensures forall i: nat :: LatestLimited(turns, i, j) <==>
              if Limited(turns, j - 1) then i == j - 1 else LatestLimited(turns, i, j - 1)
  {
    var n := j - 1;
    forall i: nat
      ensures LatestAttempt(turns, i, j) <==> if AttemptAt(turns, n) then i == n else LatestAttempt(turns, i, n)
      ensures LatestLimited(turns, i, j) <==> if Limited(turns, n) then i == n else LatestLimited(turns, i, n)
    {
    }
  }

  /** Exactly when a refused handshake leads to a login: two minutes after the latest one, if there
      was any, and not before the latest rate limit ends. */
  lemma AttemptIff(turns: seq<Turn>, j: nat)
    requires j < |turns| && turns[j].Refused?
    ensures AttemptAt(turns, j) <==>
              && (forall i: nat | LatestAttempt(turns, i, j) :: turns[j].now - turns[i].now >= 120_000_000_000)
              && (forall i: nat | LatestLimited(turns, i, j) ::
                    turns[j].now >= turns[i].login.noticed + turns[i].login.wait)
  {
    ThrottleFollows(turns, j);
  }

  // ---------- parsing the 429 answer ----------

  /** parseRateLimitBody: retryAfterSeconds from the body, else the Retry-After header, else 15
      minutes. time.Duration(secs) * time.Second is a 64-bit product. */
  function ParseWait(body: Option<int>, header: Option<int>): int {
    if body.Some? && body.value > 0 then Wrap64(body.value * SECOND)
    else if header.Some? && header.value > 0 then Wrap64(header.value * SECOND)
    else FALLBACK_WAIT
  }

  /** The number of seconds the answer asks for. */
  function AskedSeconds(body: Option<int>, header: Option<int>): int {
    if body.Some? && body.value > 0 then body.value
    else if header.Some? && header.value > 0 then header.value
    else 900
  }

  /** The wait is what the answer asks for exactly when that is at most 9223372036 seconds. */
  lemma WaitIsExactIff(body: Option<int>, header: Option<int>)
    ensures var asked := AskedSeconds(body, header);
            ParseWait(body, header) == asked * SECOND <==> asked <= MAX_SECONDS
    ensures AskedSeconds(body, header) <= MAX_SECONDS ==> ParseWait(body, header) >= SECOND
    ensures body.Some? && 0 < body.value <= 9_223_372_036 ==> ParseWait(body, header) == body.value * 1_000_000_000
    ensures (body.None? || body.value <= 0) && header.Some? && 0 < header.value <= 9_223_372_036 ==>
              ParseWait(body, header) == header.value * 1_000_000_000
    ensures (body.None? || body.value <= 0) && (header.None? || header.value <= 0) ==>
              ParseWait(body, header) == 900_000_000_000
  {
    WrapRange(AskedSeconds(body, header) * SECOND);
  }

  /** One second more wraps around: the wait is negative and the rate limit already over. */
  lemma HugeWaitIsNegative()
    ensures ParseWait(Some(MAX_SECONDS + 1), None) < 0
  {
    assert (MAX_SECONDS + 1) * SECOND == 9_223_372_037_000_000_000;
  }
}
