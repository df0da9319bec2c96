/** Which TURN URL the agent uses: the choice made when the backend answer is read
    (pkg/config/ice_config.go) and the independent one made when the pipeline is configured
    (pkg/stream/janusvr_sink.go). */
module TurnSelect {
  import opened Common
  import opened Strings
  import Sorting

  const DEFAULT_STUN := "stun://stun.l.google.com:19302"

  /** urls is the string or the list of strings the server entry carries. */
  datatype IceServer = IceServer(urls: seq<string>, username: string, credential: string)

  datatype Selection = Selection(stun: string, turn: string, user: string, pass: string)

  // ---------- normalisation ----------

  function Normalize(raw: string): string {
    var s := TrimSpace(raw);
    if s == "" then ""
    else
      var l := ToLower(s);
      if HasPrefix(l, "turn:") && !Contains(s, "://") then "turn://" + TrimPrefix(s, "turn:")
      else if HasPrefix(l, "turns:") && !Contains(s, "://") then "turns://" + TrimPrefix(s, "turns:")
      else if HasPrefix(l, "stun:") && !Contains(s, "://") then "stun://" + TrimPrefix(s, "stun:")
      else s
  }

  lemma PrefixedIsTrimmed(scheme: string, rest: string, s: string)
    requires Trimmed(s) && scheme != "" && !IsSpace(scheme[0]) && !IsSpace(scheme[|scheme| - 1])
    requires rest == s || exists p: string :: p <= s && rest == s[|p|..]
    ensures Trimmed(scheme + rest)
  {
  }

  lemma NormalizedIsTrimmed(raw: string)
    ensures Trimmed(Normalize(raw))
  {
    var s := TrimSpace(raw);
    TrimSpaceTrims(raw);
    PrefixedIsTrimmed("turn://", TrimPrefix(s, "turn:"), s);
    PrefixedIsTrimmed("turns://", TrimPrefix(s, "turns:"), s);
    PrefixedIsTrimmed("stun://", TrimPrefix(s, "stun:"), s);
  }

  lemma ContainsInside(a: string, b: string, sub: string)
    requires |a| >= |sub| && a[|a| - |sub|..] == sub
    ensures Contains(a + b, sub)
  {
    var i := |a| - |sub|;
    assert (a + b)[i..] == sub + b;
    assert sub <= (a + b)[i..];
  }

  /** Normalising twice changes nothing. */
  lemma NormalizeIsIdempotent(raw: string)
    ensures Normalize(Normalize(raw)) == Normalize(raw)
  {
    var s, n := TrimSpace(raw), Normalize(raw);
    NormalizedIsTrimmed(raw);
    TrimmedIsFixed(n);
    TrimSpaceTrims(raw);
    TrimmedIsFixed(s);
    if n != s && n != "" {
      ContainsInside("turn://", TrimPrefix(s, "turn:"), "://");
      ContainsInside("turns://", TrimPrefix(s, "turns:"), "://");
      ContainsInside("stun://", TrimPrefix(s, "stun:"), "://");
      assert Contains(n, "://");
    }
  }

  predicate IsTurn(u: string) {
    HasPrefix(ToLower(u), "turn://") || HasPrefix(ToLower(u), "turns://")
  }

  // ---------- reading the backend answer ----------

  /** All non-blank URLs of the answer, normalised, in response order. */
  function AllUrls(servers: seq<IceServer>): seq<string> {
    if servers == [] then [] else UrlsOf(servers[0].urls) + AllUrls(servers[1..])
  }

  function UrlsOf(urls: seq<string>): seq<string> {
    if urls == [] then []
    else (if TrimSpace(urls[0]) == "" then [] else [Normalize(urls[0])]) + UrlsOf(urls[1..])
  }

  /** First occurrences of TURN URLs, in order. */
  function TurnList(urls: seq<string>): seq<string> {
    if urls == [] then []
    else
      var before, u := TurnList(urls[..|urls| - 1]), urls[|urls| - 1];
      if IsTurn(u) && u !in before then before + [u] else before
  }

  /** The stored list is duplicate-free and holds exactly the TURN URLs of the answer. */
  lemma {:induction false} TurnListIsCanonical(urls: seq<string>)
    ensures Sorting.NoDuplicates(TurnList(urls))
    ensures forall u :: u in TurnList(urls) <==> u in urls && ("turn://" <= ToLower(u) || "turns://" <= ToLower(u))
  {
    if urls != [] {
      TurnListIsCanonical(urls[..|urls| - 1]);
      assert urls == urls[..|urls| - 1] + [urls[|urls| - 1]];
    }
  }

  lemma {:induction false} UrlsAreNormalized(urls: seq<string>)
    ensures forall u | u in UrlsOf(urls) :: Trimmed(u) && u != ""
  {
    if urls != [] {
      UrlsAreNormalized(urls[1..]);
      NormalizedIsTrimmed(urls[0]);
    }
  }

  lemma {:induction false} AllAreNormalized(servers: seq<IceServer>)
    ensures forall u | u in AllUrls(servers) :: Trimmed(u) && u != ""
  {
    if servers != [] {
      AllAreNormalized(servers[1..]);
      UrlsAreNormalized(servers[0].urls);
    }
  }

  predicate Udp3478(u: string) {
    var l := ToLower(u);
    HasPrefix(l, "turn://") && Contains(l, ":3478") && Contains(l, "transport=udp")
  }

  predicate Udp443(u: string) {
    var l := ToLower(u);
    HasPrefix(l, "turn://") && Contains(l, ":443") && Contains(l, "transport=udp")
  }

  predicate Tls443(u: string) {
    var l := ToLower(u);
    HasPrefix(l, "turns://") && Contains(l, ":443") && Contains(l, "transport=tcp")
  }

  /** The first URL that satisfies p. */
  function First(urls: seq<string>, p: string -> bool): Option<string> {
    if urls == [] then None else if p(urls[0]) then Some(urls[0]) else First(urls[1..], p)
  }

  /** UDP on 3478, then UDP on 443, then TLS on 443, then whatever comes first. */
  function Preferred(urls: seq<string>): string {
    if urls == [] then ""
    else match First(urls, (u: string) => Udp3478(u))
      case Some(u) => u
      case None => match First(urls, (u: string) => Udp443(u))
        case Some(u) => u
        case None => match First(urls, (u: string) => Tls443(u))
          case Some(u) => u
          case None => urls[0]
  }

  lemma {:induction false} FirstExtends(urls: seq<string>, p: string -> bool, i: nat)
    requires i <= |urls| && forall j | 0 <= j < i :: !p(urls[j])
    ensures First(urls, p) == First(urls[i..], p)
  {
    if i > 0 {
      FirstExtends(urls[1..], p, i - 1);
      assert urls[1..][i - 1..] == urls[i..];
    } else {
      assert urls[0..] == urls;
    }
  }

  /** One pass of either chooser: the first URL that satisfies p. */
  method Choose(urls: seq<string>, p: string -> bool) returns (r: Option<string>)
    ensures r == First(urls, p)
  {
    for i := 0 to |urls|
      invariant forall j | 0 <= j < i :: !p(urls[j])
    {
      if p(urls[i]) {
        FirstExtends(urls, p, i);
        return Some(urls[i]);
      }
    }
    FirstExtends(urls, p, |urls|);
    return None;
  }

  /** The choice of the configuration side. */
  method SelectTurn(turnURLs: seq<string>) returns (turn: string)
    ensures turn == Preferred(turnURLs)
  {
    if |turnURLs| == 0 {
      return "";
    }
    var c := Choose(turnURLs, (u: string) => Udp3478(u));
    if c.None? {
      c := Choose(turnURLs, (u: string) => Udp443(u));
    }
    if c.None? {
      c := Choose(turnURLs, (u: string) => Tls443(u));
    }
    return if c.Some? then c.value else turnURLs[0];
  }

  /** The streaming side's test, with the conditions in its own order. */
  predicate Hit(u: string, scheme: string, transport: string, port: string) {
    var lu := ToLower(u);
    HasPrefix(lu, scheme) && Contains(lu, transport) && Contains(lu, port)
  }

  lemma {:induction false} FirstSame(urls: seq<string>, p: string -> bool, q: string -> bool)
    requires forall u :: p(u) == q(u)
    ensures First(urls, p) == First(urls, q)
  {
    if urls != [] {
      FirstSame(urls[1..], p, q);
    }
  }

  /** One of the streaming side's three passes. */
  method Pass(urls: seq<string>, scheme: string, transport: string, port: string) returns (r: Option<string>)
    ensures r == First(urls, (u: string) => Hit(u, scheme, transport, port))
  {
    for i := 0 to |urls|
      invariant forall j | 0 <= j < i :: !Hit(urls[j], scheme, transport, port)
    {
      if Hit(urls[i], scheme, transport, port) {
        FirstExtends(urls, (u: string) => Hit(u, scheme, transport, port), i);
        return Some(urls[i]);
      }
    }
    FirstExtends(urls, (u: string) => Hit(u, scheme, transport, port), |urls|);
    return None;
  }

  /** The choice of the streaming side. */
  method ChooseForForceRelay(urls: seq<string>) returns (turn: string)
    ensures turn == Preferred(urls)
  {
    FirstSame(urls, (u: string) => Hit(u, "turn://", "transport=udp", ":3478"), (u: string) => Udp3478(u));
    FirstSame(urls, (u: string) => Hit(u, "turn://", "transport=udp", ":443"), (u: string) => Udp443(u));
    FirstSame(urls, (u: string) => Hit(u, "turns://", "transport=tcp", ":443"), (u: string) => Tls443(u));
    var c := Pass(urls, "turn://", "transport=udp", ":3478");
    if c.None? {
      c := Pass(urls, "turn://", "transport=udp", ":443");
    }
    if c.None? {
      c := Pass(urls, "turns://", "transport=tcp", ":443");
    }
    return if c.Some? then c.value else if |urls| > 0 then urls[0] else "";
  }

  /** The preferred URL is one of the list. */
  lemma {:induction false} FirstIsMember(urls: seq<string>, p: string -> bool)
    ensures match First(urls, p)
            case None => forall u | u in urls :: !p(u)
            case Some(u) => u in urls && p(u)
  {
    if urls != [] {
      FirstIsMember(urls[1..], p);
    }
  }

  lemma PreferredIsMember(urls: seq<string>)
    requires urls != []
    ensures Preferred(urls) in urls
    ensures (exists u :: u in urls && Udp3478(u)) ==> Udp3478(Preferred(urls))
  {
    FirstIsMember(urls, (u: string) => Udp3478(u));
    FirstIsMember(urls, (u: string) => Udp443(u));
    FirstIsMember(urls, (u: string) => Tls443(u));
  }

  // ---------- the package-level state and the sink ----------

  datatype IceConfig = IceConfig(turnURL: string, turnURLs: seq<string>, user: string, forceRelay: bool)

  class IceSource {
    var lastTurnURLs: seq<string>   // survives a failed fetch

    constructor ()
      ensures lastTurnURLs == []
    {
      lastTurnURLs := [];
    }

    /** selectForGStreamer: stores the TURN list and picks STUN, TURN and credentials. */
    method SelectForGStreamer(servers: seq<IceServer>) returns (sel: Selection)
      modifies this
      ensures lastTurnURLs == TurnList(AllUrls(servers))
      ensures sel == SelectionOf(servers)
    {
      var stun, turnURLs, creds := Gather(servers);
      if stun == "" {
        stun := DEFAULT_STUN;
      }
      lastTurnURLs := turnURLs;
      if |turnURLs| == 0 {
        return Selection(stun, "", "", "");
      }
      var turn := SelectTurn(turnURLs);
      return Selection(stun, turn, creds.0, creds.1);
    }

    /** The loop over the server entries. */
    static method Gather(servers: seq<IceServer>) returns (stun: string, turnURLs: seq<string>, creds: (string, string))
      ensures stun == FirstStun(AllUrls(servers)) && turnURLs == TurnList(AllUrls(servers))
      ensures creds == Credentials(servers)
    {
      stun, turnURLs, creds := "", [], ("", "");
      var seen: set<string> := {};
      ghost var done: seq<string> := [];
      for i := 0 to |servers|
        invariant stun == FirstStun(done) && turnURLs == TurnList(done) && seen == (set u | u in turnURLs)
        invariant done + AllUrls(servers[i..]) == AllUrls(servers)
        invariant creds == Credentials(servers[..i])
      {
        assert servers[..i + 1][..i] == servers[..i];
        if servers[i].username != "" && servers[i].credential != "" && creds.0 == "" {
          creds := (servers[i].username, servers[i].credential);
        }
        AllUrlsStep(servers, i, done);
        stun, turnURLs, seen, done := Collect(servers[i].urls, stun, turnURLs, seen, done);
      }
      assert servers[|servers|..] == [] && servers[..|servers|] == servers;
      assert done + [] == done;
    }

    static lemma AllUrlsStep(servers: seq<IceServer>, i: nat, done: seq<string>)
      requires i < |servers|
      ensures done + UrlsOf(servers[i].urls) + AllUrls(servers[i + 1..]) == done + AllUrls(servers[i..])
    {
      assert servers[i..][1..] == servers[i + 1..];
      var here, rest := UrlsOf(servers[i].urls), AllUrls(servers[i + 1..]);
      assert done + (here + rest) == done + here + rest;
    }

    static lemma UrlsStep(urls: seq<string>, i: nat, done: seq<string>)
      requires i < |urls|
      ensures done + UrlsOf(urls[i..]) ==
              (if TrimSpace(urls[i]) == "" then done else done + [Normalize(urls[i])]) + UrlsOf(urls[i + 1..])
    {
      assert urls[i..][1..] == urls[i + 1..];
      if TrimSpace(urls[i]) == "" {
        assert [] + UrlsOf(urls[i + 1..]) == UrlsOf(urls[i + 1..]);
      } else {
        var here, rest := [Normalize(urls[i])], UrlsOf(urls[i + 1..]);
        assert done + (here + rest) == done + here + rest;
      }
    }

    /** The inner loop over the URLs of one server entry. */
    static method Collect(urls: seq<string>, stun0: string, turn0: seq<string>, seen0: set<string>,
        ghost done0: seq<string>)
      returns (stun: string, turnURLs: seq<string>, seen: set<string>, ghost done: seq<string>)
      requires stun0 == FirstStun(done0) && turn0 == TurnList(done0) && seen0 == (set u | u in turn0)
      ensures done == done0 + UrlsOf(urls)
      ensures stun == FirstStun(done) && turnURLs == TurnList(done) && seen == (set u | u in turnURLs)
    {
      stun, turnURLs, seen, done := stun0, turn0, seen0, done0;
      for i := 0 to |urls|
        invariant done + UrlsOf(urls[i..]) == done0 + UrlsOf(urls)
        invariant stun == FirstStun(done) && turnURLs == TurnList(done) && seen == (set u | u in turnURLs)
      {
        UrlsStep(urls, i, done);
        if TrimSpace(urls[i]) != "" {
          var n := Normalize(urls[i]);
          stun, turnURLs, seen := Keep(n, stun, turnURLs, seen, done);
          done := done + [n];
        }
      }
      assert urls[|urls|..] == [];
    }

    /** One normalised URL: the first STUN URL and every new TURN URL are kept. */
    static method Keep(n: string, stun0: string, turn0: seq<string>, seen0: set<string>, ghost done: seq<string>)
      returns (stun: string, turnURLs: seq<string>, seen: set<string>)
      requires stun0 == FirstStun(done) && turn0 == TurnList(done) && seen0 == (set u | u in turn0)
      ensures stun == FirstStun(done + [n]) && turnURLs == TurnList(done + [n]) && seen == (set u | u in turnURLs)
    {
      assert (done + [n])[..|done|] == done;
      SchemesDiffer(n);
      stun, turnURLs, seen := stun0, turn0, seen0;
      var ln := ToLower(n);
      if HasPrefix(ln, "stun://") && stun == "" {
        stun := n;
        return;
      }
      if HasPrefix(ln, "turn://") || HasPrefix(ln, "turns://") {
        if n in seen {
          return;
        }
        seen := seen + {n};
        turnURLs := turnURLs + [n];
      }
    }
  }

  /** The first STUN URL, or nothing. */
  function FirstStun(urls: seq<string>): string {
    if urls == [] then ""
    else
      var before, u := FirstStun(urls[..|urls| - 1]), urls[|urls| - 1];
      if before == "" && HasPrefix(ToLower(u), "stun://") then u else before
  }

  /** Name and password of the first server entry that has both. */
  function Credentials(servers: seq<IceServer>): (string, string) {
    if servers == [] then ("", "")
    else
      var before, s := Credentials(servers[..|servers| - 1]), servers[|servers| - 1];
      if before.0 == "" && s.username != "" && s.credential != "" then (s.username, s.credential) else before
  }

  function SelectionOf(servers: seq<IceServer>): Selection {
    var urls := AllUrls(servers);
    var stun := if FirstStun(urls) == "" then DEFAULT_STUN else FirstStun(urls);
    if TurnList(urls) == [] then Selection(stun, "", "", "")
    else Selection(stun, Preferred(TurnList(urls)), Credentials(servers).0, Credentials(servers).1)
  }

  lemma SchemesDiffer(u: string)
    ensures !(HasPrefix(ToLower(u), "stun://") && IsTurn(u))
  {
    if HasPrefix(ToLower(u), "stun://") {
      assert ToLower(u)[0] == "stun://"[0];
    }
  }

  /** normalizeTurnList: trim, drop blanks and duplicates, then append the single URL if new. */
  function SinkList(ice: IceConfig): seq<string> {
    var kept := Kept(ice.turnURLs);
    var u := TrimSpace(ice.turnURL);
    if u != "" && u !in kept then kept + [u] else kept
  }

  function Kept(urls: seq<string>): seq<string> {
    if urls == [] then []
    else
      var before, u := Kept(urls[..|urls| - 1]), TrimSpace(urls[|urls| - 1]);
      if u == "" || u in before then before else before + [u]
  }

  method NormalizeTurnList(ice: IceConfig) returns (out: seq<string>)
    ensures out == SinkList(ice)
  {
    out := [];
    var seen: set<string> := {};
    for i := 0 to |ice.turnURLs|
      invariant out == Kept(ice.turnURLs[..i]) && seen == (set u | u in out)
    {
      assert ice.turnURLs[..i + 1][..i] == ice.turnURLs[..i];
      var u := TrimSpace(ice.turnURLs[i]);
      if u == "" || u in seen {
        continue;
      }
      seen := seen + {u};
      out := out + [u];
    }
    assert ice.turnURLs[..|ice.turnURLs|] == ice.turnURLs;
    if TrimSpace(ice.turnURL) != "" {
      var u := TrimSpace(ice.turnURL);
      if u !in seen {
        out := out + [u];
      }
    }
  }

  /** The forceRelay part of SetICE; override is the local configuration's. */
  method SetIce(ice: IceConfig, override: Option<bool>) returns (applied: IceConfig)
    ensures applied == Applied(ice, override)
  {
    applied := ice;
    if override.Some? {
      applied := applied.(forceRelay := override.value);
    }
    var turnList := NormalizeTurnList(applied);
    if applied.forceRelay {
      var chosen := ChooseForForceRelay(turnList);
      if chosen != "" && chosen != applied.turnURL {
        applied := applied.(turnURL := chosen);
      }
    }
  }

  function Applied(ice: IceConfig, override: Option<bool>): IceConfig {
    var ice1 := if override.Some? then ice.(forceRelay := override.value) else ice;
    var chosen := Preferred(SinkList(ice1));
    if ice1.forceRelay && chosen != "" then ice1.(turnURL := chosen) else ice1
  }

  lemma {:induction false} KeptIsIdentity(urls: seq<string>)
    requires Sorting.NoDuplicates(urls) && forall u | u in urls :: Trimmed(u) && u != ""
    ensures Kept(urls) == urls
  {
    if urls != [] {
      var prev, u := urls[..|urls| - 1], urls[|urls| - 1];
      KeptIsIdentity(prev);
      TrimmedIsFixed(u);
      assert u !in prev;
    }
  }

  /** What refreshICE hands to the sink after the answer was selected from. */
  function FetchedConfig(servers: seq<IceServer>): IceConfig {
    var sel := SelectionOf(servers);
    IceConfig(sel.turn, TurnList(AllUrls(servers)), sel.user, false)
  }

  /** The two choosers agree, for every backend answer: the sink's list is the stored list
      unchanged, its choice is the URL already chosen, and forcing relay changes no TURN URL. */
  lemma ChoosersAgree(servers: seq<IceServer>, override: Option<bool>)
    ensures var ice := FetchedConfig(servers);
            && SinkList(ice) == ice.turnURLs && Preferred(SinkList(ice)) == ice.turnURL
            && Applied(ice, override).turnURL == ice.turnURL
  {
    var ice := FetchedConfig(servers);
    AllAreNormalized(servers);
    TurnListIsCanonical(AllUrls(servers));
    KeptIsIdentity(ice.turnURLs);
    if ice.turnURLs != [] {
      PreferredIsMember(ice.turnURLs);
      TrimmedIsFixed(ice.turnURL);
    }
  }

  /** What refreshICE hands over when the fetch fails: no URL, no user, but the list stored by
      the last successful fetch. */
  function FailedConfig(stored: seq<string>): IceConfig {
    IceConfig("", stored, "", false)
  }

  /** After a failed fetch, forcing relay leaves the empty TURN URL alone exactly when nothing is
      stored; otherwise it revives a URL of the last successful answer without its credentials. */
  lemma StaleTurnRevivedIff(servers: seq<IceServer>, override: Option<bool>)
    ensures var stored := TurnList(AllUrls(servers)); var ice := FailedConfig(stored);
            && (Applied(ice, override).turnURL == "" <==> override != Some(true) || stored == [])
            && Applied(ice, override).turnURL in [""] + stored && Applied(ice, override).user == ""
  {
    var stored := TurnList(AllUrls(servers));
    AllAreNormalized(servers);
    TurnListIsCanonical(AllUrls(servers));
    KeptIsIdentity(stored);
    if stored != [] {
      PreferredIsMember(stored);
    }
  }

  // ---------- what the choices are, URL by URL ----------

  /** s holds sub as a whole. */
  lemma ContainsIff(s: string, sub: string)
    ensures Contains(s, sub) <==> exists a, b :: s == a + sub + b
  {
    if i :| 0 <= i <= |s| && sub <= s[i..] {
      assert s == s[..i] + sub + s[i + |sub|..];
    }
    if a, b :| s == a + sub + b {
      assert s[|a|..] == sub + b;
      assert sub <= s[|a|..];
    }
  }

  /** A URL without "://" gets its scheme written out, if the scheme is in small letters. */
  lemma SchemeIsWrittenOut(h: string)
    requires !Contains("stun:" + h, "://") && !Contains("turn:" + h, "://") && !Contains("turns:" + h, "://")
    requires h != "" ==> !IsSpace(h[|h| - 1])
    ensures Normalize("turn:" + h) == "turn://" + h
    ensures Normalize("turns:" + h) == "turns://" + h
    ensures Normalize("stun:" + h) == "stun://" + h
  {
    SchemeStands("turn:", h);
    SchemeStands("turns:", h);
    SchemeStands("stun:", h);
    assert ("turns:" + h)[4] != "turn:"[4];
    assert ToLower("turns:" + h)[4] != "turn:"[4];
    assert ToLower("stun:" + h)[0] != "turn:"[0] && ToLower("stun:" + h)[0] != "turns:"[0];
  }

  lemma SchemeStands(scheme: string, h: string)
    requires scheme in {"turn:", "turns:", "stun:"} && (h != "" ==> !IsSpace(h[|h| - 1]))
    ensures TrimSpace(scheme + h) == scheme + h
    ensures HasPrefix(ToLower(scheme + h), scheme) && TrimPrefix(scheme + h, scheme) == h
  {
    TrimmedIsFixed(scheme + h);
    assert ToLower(scheme) == scheme;
    assert ToLower(scheme + h)[..|scheme|] == scheme;
  }

  /** In capitals the scheme stays where it is, behind a second one. */
  lemma CapitalSchemeIsDoubled(h: string)
    requires !Contains("TURN:" + h, "://") && (h != "" ==> !IsSpace(h[|h| - 1]))
    ensures Normalize("TURN:" + h) == "turn://TURN:" + h
  {
    var s := "TURN:" + h;
    TrimmedIsFixed(s);
    assert ToLower("TURN:") == "turn:";
    assert ToLower(s)[..5] == "turn:";
    assert s[0] != "turn:"[0];
    assert "turn://" + s == "turn://TURN:" + h;
  }

  /** A URL that has its scheme written out is only trimmed. */
  lemma WrittenOutIsKept(a: string, u: string, b: string)
    requires (forall c | c in a :: IsSpace(c)) && (forall c | c in b :: IsSpace(c))
    requires u != "" && Trimmed(u) && exists scheme, rest :: u == scheme + "://" + rest
    ensures Normalize(a + u + b) == u
  {
    ContainsIff(u, "://");
    TrimSpaceStrips(a, u, b);
  }

  /** How good a TURN URL is, best first: plain TURN over UDP on port 3478, the same on 443, TLS over
      TCP on 443, anything else. */
  function Rank(u: string): nat {
    var l := ToLower(u);
    if "turn://" <= l && Contains(l, ":3478") && Contains(l, "transport=udp") then 0
    else if "turn://" <= l && Contains(l, ":443") && Contains(l, "transport=udp") then 1
    else if "turns://" <= l && Contains(l, ":443") && Contains(l, "transport=tcp") then 2
    else 3
  }

  lemma {:induction false} FirstIsFirst(urls: seq<string>, p: string -> bool, i: nat)
    requires i < |urls| && p(urls[i]) && forall j: nat | j < i :: !p(urls[j])
    ensures First(urls, p) == Some(urls[i])
  {
    if i > 0 {
      FirstIsFirst(urls[1..], p, i - 1);
    }
  }

  lemma {:induction false} SomeFirst(urls: seq<string>, p: string -> bool) returns (i: nat)
    requires exists u :: u in urls && p(u)
    ensures i < |urls| && p(urls[i]) && forall j: nat | j < i :: !p(urls[j])
  {
    if p(urls[0]) {
      i := 0;
    } else {
      i := SomeFirst(urls[1..], p);
      i := i + 1;
    }
  }

  function Level(p: string -> bool, q: string -> bool, r: string -> bool, u: string): nat {
    if p(u) then 0 else if q(u) then 1 else if r(u) then 2 else 3
  }

  /** Three passes and a fallback find the first of the best level. */
  lemma PassesFindBest(urls: seq<string>, p: string -> bool, q: string -> bool, r: string -> bool) returns (i: nat)
    requires urls != []
    ensures i < |urls|
    ensures First(urls, p) == Some(urls[i])
            || (First(urls, p).None? && First(urls, q) == Some(urls[i]))
            || (First(urls, p).None? && First(urls, q).None? && First(urls, r) == Some(urls[i]))
            || (First(urls, p).None? && First(urls, q).None? && First(urls, r).None? && i == 0)
    ensures forall j: nat | j < |urls| :: Level(p, q, r, urls[i]) <= Level(p, q, r, urls[j])
    ensures forall j: nat | j < i :: Level(p, q, r, urls[i]) < Level(p, q, r, urls[j])
  {
    FirstIsMember(urls, p);
    FirstIsMember(urls, q);
    FirstIsMember(urls, r);
    if First(urls, p).Some? {
      i := SomeFirst(urls, p);
      FirstIsFirst(urls, p, i);
    } else if First(urls, q).Some? {
      i := SomeFirst(urls, q);
      FirstIsFirst(urls, q, i);
    } else if First(urls, r).Some? {
      i := SomeFirst(urls, r);
      FirstIsFirst(urls, r, i);
    } else {
      i := 0;
    }
  }

  /** The chosen URL is the first of the best rank. */
  lemma PreferredIsFirstBest(urls: seq<string>) returns (i: nat)
    requires urls != []
    ensures i < |urls| && Preferred(urls) == urls[i]
    ensures forall j: nat | j < |urls| :: Rank(urls[i]) <= Rank(urls[j])
    ensures forall j: nat | j < i :: Rank(urls[i]) < Rank(urls[j])
  {
    var p, q, r := (u: string) => Udp3478(u), (u: string) => Udp443(u), (u: string) => Tls443(u);
    i := PassesFindBest(urls, p, q, r);
    forall u
      ensures Rank(u) == Level(p, q, r, u)
    {
      RankIsLevel(u);
    }
  }

  lemma RankIsLevel(u: string)
    ensures Rank(u) == if Udp3478(u) then 0 else if Udp443(u) then 1 else if Tls443(u) then 2 else 3
  {
  }

  /** Name and password come from the first server entry that has both. */
  lemma {:induction false} CredentialsAreFirst(servers: seq<IceServer>, i: nat)
    requires i <= |servers| && forall j: nat | j < i :: servers[j].username == "" || servers[j].credential == ""
    requires i < |servers| ==> servers[i].username != "" && servers[i].credential != ""
    ensures Credentials(servers) == if i < |servers| then (servers[i].username, servers[i].credential) else ("", "")
  {
    if servers != [] {
      var n := |servers| - 1;
      if i <= n {
        CredentialsAreFirst(servers[..n], i);
      } else {
        CredentialsAreFirst(servers[..n], n);
      }
    }
  }

  /** The STUN URL is the first of the answer, or the public one. */
  lemma {:induction false} StunIsFirst(urls: seq<string>, i: nat)
    requires i <= |urls| && forall j: nat | j < i :: !("stun://" <= ToLower(urls[j]))
    requires i < |urls| ==> "stun://" <= ToLower(urls[i])
    ensures FirstStun(urls) == if i < |urls| then urls[i] else ""
  {
    if urls != [] {
      var n := |urls| - 1;
      if i <= n {
        StunIsFirst(urls[..n], i);
      } else {
        StunIsFirst(urls[..n], n);
      }
      assert i < n ==> FirstStun(urls[..n]) != "";
    }
  }

  /** What reading the backend answer selects. */
  lemma SelectionInWords(servers: seq<IceServer>)
    ensures var urls, sel := AllUrls(servers), SelectionOf(servers);
            && ((forall u | u in urls :: !("stun://" <= ToLower(u))) ==> sel.stun == "stun://stun.l.google.com:19302")
            && ((forall u | u in urls :: !("turn://" <= ToLower(u)) && !("turns://" <= ToLower(u))) ==>
                  sel.turn == sel.user == sel.pass == "")
  {
    var urls := AllUrls(servers);
    if forall u | u in urls :: !("stun://" <= ToLower(u)) {
      StunIsFirst(urls, |urls|);
    }
    TurnListIsCanonical(urls);
    if TurnList(urls) != [] {
      assert TurnList(urls)[0] in TurnList(urls);
    }
  }

  lemma {:induction false} UrlsAre(urls: seq<string>)
    ensures forall u :: u in UrlsOf(urls) <==>
              exists j: nat :: j < |urls| && TrimSpace(urls[j]) != "" && Normalize(urls[j]) == u
  {
    if urls != [] {
      UrlsAre(urls[1..]);
      forall u
        ensures u in UrlsOf(urls) <==>
                  exists j: nat :: j < |urls| && TrimSpace(urls[j]) != "" && Normalize(urls[j]) == u
      {
        if j: nat :| j < |urls[1..]| && TrimSpace(urls[1..][j]) != "" && Normalize(urls[1..][j]) == u {
          assert urls[j + 1] == urls[1..][j];
        }
        if j: nat :| j < |urls| && TrimSpace(urls[j]) != "" && Normalize(urls[j]) == u {
          assert j > 0 ==> urls[1..][j - 1] == urls[j];
        }
      }
    }
  }

  lemma {:induction false} AnswerUrlsAre(servers: seq<IceServer>)
    ensures forall u :: u in AllUrls(servers) <==>
              exists i: nat :: i < |servers| && u in UrlsOf(servers[i].urls)
  {
    if servers != [] {
      AnswerUrlsAre(servers[1..]);
      forall u
        ensures u in AllUrls(servers) <==> exists i: nat :: i < |servers| && u in UrlsOf(servers[i].urls)
      {
        if i: nat :| i < |servers[1..]| && u in UrlsOf(servers[1..][i].urls) {
          assert servers[i + 1] == servers[1..][i];
        }
        if i: nat :| i < |servers| && u in UrlsOf(servers[i].urls) {
          assert i > 0 ==> servers[1..][i - 1] == servers[i];
        }
      }
    }
  }

  /** The URLs read from an answer are exactly the non-blank ones of its entries, normalised. */
  lemma AllUrlsAre(servers: seq<IceServer>)
    ensures forall u :: u in AllUrls(servers) <==>
              exists i: nat, j: nat :: i < |servers| && j < |servers[i].urls|
                                       && TrimSpace(servers[i].urls[j]) != "" && Normalize(servers[i].urls[j]) == u
  {
    AnswerUrlsAre(servers);
    forall i: nat | i < |servers|
      ensures forall u :: u in UrlsOf(servers[i].urls) <==>
                exists j: nat :: j < |servers[i].urls| && TrimSpace(servers[i].urls[j]) != ""
                                 && Normalize(servers[i].urls[j]) == u
    {
      UrlsAre(servers[i].urls);
    }
  }

  /** The stored TURN list keeps the order of the answer: reading more only appends. */
  lemma {:induction false} TurnListGrows(urls: seq<string>, n: nat)
    requires n <= |urls|
    ensures TurnList(urls[..n]) <= TurnList(urls)
  {
    if n == |urls| {
      assert urls[..n] == urls;
    } else {
      var m := |urls| - 1;
      TurnListGrows(urls[..m], n);
      assert urls[..m][..n] == urls[..n];
    }
  }

  /** The sink's list: exactly the non-blank URLs, trimmed and without repetition, in their order,
      the single URL last if it is new. */
  lemma {:induction false} KeptIsCanonical(urls: seq<string>)
    ensures Sorting.NoDuplicates(Kept(urls))
    ensures forall u :: u in Kept(urls) <==> u != "" && exists i: nat :: i < |urls| && TrimSpace(urls[i]) == u
  {
    if urls != [] {
      var n := |urls| - 1;
      KeptIsCanonical(urls[..n]);
      forall u
        ensures u in Kept(urls) <==> u != "" && exists i: nat :: i < |urls| && TrimSpace(urls[i]) == u
      {
        if i: nat :| i < |urls| && TrimSpace(urls[i]) == u {
          assert i < n ==> urls[..n][i] == urls[i];
        }
      }
    }
  }

  lemma SinkListIsCanonical(ice: IceConfig)
    ensures Sorting.NoDuplicates(SinkList(ice)) && Kept(ice.turnURLs) <= SinkList(ice)
    ensures forall u :: u in SinkList(ice) <==>
              u != "" && (TrimSpace(ice.turnURL) == u
                         || exists i: nat :: i < |ice.turnURLs| && TrimSpace(ice.turnURLs[i]) == u)
  {
    KeptIsCanonical(ice.turnURLs);
  }

  /** What SetICE makes of a configuration: the local override decides on forcing, and a forced relay
      with any TURN URL at all uses the first of the best rank; nothing else changes. */
  lemma ForcedRelayUsesBest(ice: IceConfig, override: Option<bool>)
    ensures var got, forced := Applied(ice, override), if override.Some? then override.value else ice.forceRelay;
            && got.forceRelay == forced && got.turnURLs == ice.turnURLs && got.user == ice.user
            && (!forced || SinkList(ice) == [] ==> got.turnURL == ice.turnURL)
            && (forced && SinkList(ice) != [] ==>
                  exists i: nat :: i < |SinkList(ice)| && got.turnURL == SinkList(ice)[i]
                    && (forall j: nat | j < |SinkList(ice)| :: Rank(SinkList(ice)[i]) <= Rank(SinkList(ice)[j]))
                    && (forall j: nat | j < i :: Rank(SinkList(ice)[i]) < Rank(SinkList(ice)[j])))
  {
    var list := SinkList(ice);
    SinkListIsCanonical(ice);
    if list != [] {
      var i := PreferredIsFirstBest(list);
      assert list[i] in list;
    }
  }
}
