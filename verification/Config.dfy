/** Defaulting, validating and saving the agent's configuration (pkg/config/config.go), and the
    save done by pairing (pkg/auth/pairing.go). JSON encoding is the identity on records. */
module Config {
  import opened Common
  import opened Strings

  // The flat record of the source, its fields grouped by what is defaulted together.
  datatype Pairing = Pairing(mavID: string, agentToken: string)
  datatype Endpoints = Endpoints(backendWsURL: string, backendURL: string, janusURL: string,
      mavlinkConnection: string, agentGcsID: int)
  datatype Flags = Flags(allowControl: bool, includeGps: Option<bool>, allowGoto: Option<bool>,
      allowRcOverride: Option<bool>,
                         allowAircraft: bool, thrustMode: string)
  datatype Video = Video(codec: string, encoder: string, profile: string, preferMjpg: Option<bool>,
                         width: int, height: int, fps: int, pixFmt: string)
  datatype Rates = Rates(h264: int, max: int, start: int, min: int)
  datatype Failsafe = Failsafe(controlTimeoutMs: int, reissueStopMs: int, throttleStopPwm: int, steeringStopPwm: int)
  datatype Other = Other(forceRelay: Option<bool>, audioDevice: string, videoDevice: string)

  datatype AgentConfig = AgentConfig(pairing: Pairing, endpoints: Endpoints, flags: Flags, video: Video, rates: Rates,
                                     failsafe: Failsafe, other: Other)

  // What url.Parse makes of the backend URL: the scheme and the host, if there is one.
  datatype Parsed = Parsed(scheme: string, host: string)

  // The surroundings applyDefaults looks at: JANUS_URL and the URL parser.
  datatype Env = Env(janusURL: string, parse: string -> Option<Parsed>)

  predicate Blank(s: string) {
    TrimSpace(s) == ""
  }

  predicate EqualFold(a: string, b: string) {
    ToLower(a) == ToLower(b)
  }

  function Or(s: string, fallback: string): string {
    if Blank(s) then fallback else s
  }

  function OrBool(b: Option<bool>, fallback: bool): Option<bool> {
    if b.None? then Some(fallback) else b
  }

  function ThrustMode(s: string): string {
    var m := ToUpper(TrimSpace(s));
    if m == "THRUST_FWD_ONLY" || m == "FWD_ONLY" then "THRUST_FWD_ONLY" else "THRUST_FWD_REV"
  }

  function DeriveJanus(env: Env, backend: string): string {
    if backend == "" then ""
    else match env.parse(backend)
      case None => ""
      case Some(p) =>
        if p.host == "" then "" else (if p.scheme == "https" then "wss" else "ws") + "://" + p.host + "/janus"
  }

  function JanusURL(env: Env, given: string, backend: string): string {
    if !Blank(given) then given
    else if !Blank(env.janusURL) then TrimSpace(env.janusURL)
    else if DeriveJanus(env, backend) != "" then DeriveJanus(env, backend)
    else "ws://localhost:8188/janus"
  }

  // ---------- defaults ----------

  function PlainEndpoints(e: Endpoints): Endpoints {
    Endpoints(Or(e.backendWsURL, "ws://localhost:8080/api/ws/agent"), Or(e.backendURL, "http://localhost:8080"),
        e.janusURL,
              Or(e.mavlinkConnection, "udpclient:127.0.0.1:14551"), if e.agentGcsID == 0 then 255 else e.agentGcsID)
  }

  /** The Janus URL is derived last, from the defaulted backend URL. */
  function WithJanus(env: Env, e: Endpoints): Endpoints {
    e.(janusURL := JanusURL(env, e.janusURL, e.backendURL))
  }

  function EndpointDefaults(env: Env, e: Endpoints): Endpoints {
    WithJanus(env, PlainEndpoints(e))
  }

  function FlagDefaults(f: Flags): Flags {
    f.(includeGps := OrBool(f.includeGps, true), allowGoto := OrBool(f.allowGoto, true),
       allowRcOverride := OrBool(f.allowRcOverride, false), thrustMode := ThrustMode(f.thrustMode))
  }

  function VideoDefaults(v: Video): Video {
    v.(codec := Or(v.codec, "vp8"), encoder := Or(v.encoder, "auto"), profile := Or(v.profile, "baseline"),
       preferMjpg := OrBool(v.preferMjpg, true))
  }

  function Min(a: int, b: int): int {
    if a > b then b else a
  }

  /** The rate defaults hang on one another and on the codec. */
  function RateDefaults(codec: string, r: Rates): Rates {
    var h264 := if r.h264 > 0 then r.h264
                else if EqualFold(codec, "h264") || EqualFold(codec, "auto") then 1_500_000 else 2_000_000;
    var max := if r.max > 0 then r.max else h264;
    var start := if r.start > 0 then r.start else Min(800_000, max);
    Rates(h264, max, start, if r.min > 0 then r.min else Min(150_000, start))
  }

  function FailsafeDefaults(f: Failsafe): Failsafe {
    Failsafe(if f.controlTimeoutMs <= 0 then 450 else f.controlTimeoutMs,
             if f.reissueStopMs <= 0 then 500 else f.reissueStopMs,
             if f.throttleStopPwm == 0 then 1500 else f.throttleStopPwm,
             if f.steeringStopPwm == 0 then 1500 else f.steeringStopPwm)
  }

  function Defaults(env: Env, c: AgentConfig): AgentConfig {
    c.(endpoints := EndpointDefaults(env, c.endpoints), flags := FlagDefaults(c.flags), video := VideoDefaults(c.video),
       rates := RateDefaults(VideoDefaults(c.video).codec, c.rates), failsafe := FailsafeDefaults(c.failsafe))
  }

  // Nothing left for applyDefaults to do, group by group.

  predicate EndpointsComplete(e: Endpoints) {
    !Blank(e.backendWsURL) && !Blank(e.backendURL) && !Blank(e.janusURL) && !Blank(e.mavlinkConnection)
        && e.agentGcsID != 0
  }

  predicate FlagsComplete(f: Flags) {
    f.includeGps.Some? && f.allowGoto.Some? && f.allowRcOverride.Some?
        && f.thrustMode in {"THRUST_FWD_REV", "THRUST_FWD_ONLY"}
  }

  predicate VideoComplete(v: Video) {
    !Blank(v.codec) && !Blank(v.encoder) && !Blank(v.profile) && v.preferMjpg.Some?
  }

  predicate RatesComplete(r: Rates) {
    r.h264 > 0 && r.max > 0 && r.start > 0 && r.min > 0
  }

  predicate FailsafeComplete(f: Failsafe) {
    f.controlTimeoutMs > 0 && f.reissueStopMs > 0 && f.throttleStopPwm != 0 && f.steeringStopPwm != 0
  }

  predicate Complete(c: AgentConfig) {
    && EndpointsComplete(c.endpoints) && FlagsComplete(c.flags) && VideoComplete(c.video)
    && RatesComplete(c.rates) && FailsafeComplete(c.failsafe)
  }

  lemma ThrustModeIsCanonical(s: string)
    ensures ThrustMode(s) in {"THRUST_FWD_REV", "THRUST_FWD_ONLY"}
    ensures s in {"THRUST_FWD_REV", "THRUST_FWD_ONLY"} ==> ThrustMode(s) == s
  {
    if s in {"THRUST_FWD_REV", "THRUST_FWD_ONLY"} {
      TrimmedIsFixed(s);
      assert ToUpper(s) == s;
    }
  }

  lemma TrimmedIsNotBlank(s: string)
    requires s != "" && Trimmed(s)
    ensures !Blank(s)
  {
    TrimmedIsFixed(s);
  }

  lemma JanusIsNotBlank(env: Env, given: string, backend: string)
    ensures !Blank(JanusURL(env, given, backend))
  {
    TrimmedIsNotBlank("ws://localhost:8188/janus");
    TrimSpaceTrims(env.janusURL);
    TrimmedIsFixed(TrimSpace(env.janusURL));
    var d := DeriveJanus(env, backend);
    if d != "" {
      assert d[0] == 'w' && d[|d| - 1] == 's';
      TrimmedIsNotBlank(d);
    }
  }

  lemma EndpointDefaultsAreComplete(env: Env, e: Endpoints)
    ensures EndpointsComplete(EndpointDefaults(env, e))
  {
    TrimmedIsNotBlank("ws://localhost:8080/api/ws/agent");
    TrimmedIsNotBlank("http://localhost:8080");
    TrimmedIsNotBlank("udpclient:127.0.0.1:14551");
    JanusIsNotBlank(env, e.janusURL, Or(e.backendURL, "http://localhost:8080"));
  }

  lemma VideoDefaultsAreComplete(v: Video)
    ensures VideoComplete(VideoDefaults(v))
  {
    TrimmedIsNotBlank("vp8");
    TrimmedIsNotBlank("auto");
    TrimmedIsNotBlank("baseline");
  }

  lemma DefaultsAreComplete(env: Env, c: AgentConfig)
    ensures Complete(Defaults(env, c))
  {
    EndpointDefaultsAreComplete(env, c.endpoints);
    ThrustModeIsCanonical(c.flags.thrustMode);
    VideoDefaultsAreComplete(c.video);
  }

  /** A complete configuration is exactly a fixpoint of the defaults. */
  lemma CompleteIffFixpoint(env: Env, c: AgentConfig)
    ensures Complete(c) <==> Defaults(env, c) == c
  {
    DefaultsAreComplete(env, c);
    ThrustModeIsCanonical(c.flags.thrustMode);
  }

  /** Defaulting twice changes nothing, whatever the two environments say. */
  lemma DefaultsAreIdempotent(env: Env, later: Env, c: AgentConfig)
    ensures Defaults(later, Defaults(env, c)) == Defaults(env, c)
  {
    DefaultsAreComplete(env, c);
    CompleteIffFixpoint(later, Defaults(env, c));
  }

  // ---------- validation ----------

  function Lower(s: string): string {
    ToLower(TrimSpace(s))
  }

  function LoweredVideo(v: Video): Video {
    v.(codec := Lower(v.codec), encoder := Lower(v.encoder), profile := Lower(v.profile))
  }

  function Lowered(c: AgentConfig): AgentConfig {
    c.(video := LoweredVideo(c.video))
  }

  predicate InBitrateRange(b: int) {
    50_000 <= b <= 20_000_000
  }

  const RESOLUTIONS := {(320, 180), (640, 360), (854, 480), (960, 540), (1280, 720), (1920, 1080)}

  predicate VideoOk(v: Video) {
    && v.codec in {"vp8", "h264", "auto"} && v.encoder in {"auto", "v4l2h264enc", "x264enc"}
    && v.profile in {"baseline", "constrained-baseline", "main", "high"} && SizeOk(v)
  }

  predicate SizeOk(v: Video) {
    && (v.width > 0 || v.height > 0 ==> (v.width, v.height) in RESOLUTIONS)
    && (v.fps > 0 ==> v.fps in {5, 10, 15, 20, 24, 25, 30})
  }

  lemma EnvelopeIsImplied(v: Video)
    requires SizeOk(v)
    ensures v.width <= 1920 && v.height <= 1080 && v.fps <= 30
  {
  }

  predicate RatesOk(r: Rates) {
    && 100_000 <= r.h264 <= 20_000_000
    && InBitrateRange(r.min) && InBitrateRange(r.start) && InBitrateRange(r.max)
    && r.min <= r.start <= r.max
  }

  predicate FailsafeOk(f: Failsafe) {
    && 100 <= f.controlTimeoutMs <= 5000 && 100 <= f.reissueStopMs <= 5000
    && 1000 <= f.throttleStopPwm <= 2000 && 1000 <= f.steeringStopPwm <= 2000
  }

  predicate Acceptable(c: AgentConfig) {
    1 <= c.endpoints.agentGcsID <= 255 && VideoOk(c.video) && RatesOk(c.rates) && FailsafeOk(c.failsafe)
  }

  const WORDS := {"vp8", "h264", "auto", "v4l2h264enc", "x264enc", "baseline", "constrained-baseline", "main", "high"}

  lemma WordsAreCanonical(s: string)
    requires s in WORDS
    ensures !Blank(s) && Lower(s) == s
  {
    TrimmedIsNotBlank(s);
    TrimmedIsFixed(s);
    assert ToLower(s) == s;
  }

  /** Any configuration SaveConfig accepts reloads unchanged, whatever the environment has become,
      and keeps every promised range. */
  lemma AcceptedReloads(env: Env, later: Env, c: AgentConfig)
    requires Acceptable(Lowered(Defaults(env, c)))
    ensures var saved := Lowered(Defaults(env, c));
            && Defaults(later, saved) == saved && saved.flags.thrustMode in {"THRUST_FWD_REV", "THRUST_FWD_ONLY"}
            && 50_000 <= saved.rates.min <= saved.rates.start <= saved.rates.max <= 20_000_000
            && 100 <= saved.failsafe.controlTimeoutMs <= 5000 && 100 <= saved.failsafe.reissueStopMs <= 5000
            && 1000 <= saved.failsafe.throttleStopPwm <= 2000 && 1000 <= saved.failsafe.steeringStopPwm <= 2000
  {
    var saved := Lowered(Defaults(env, c));
    DefaultsAreComplete(env, c);
    WordsAreCanonical(saved.video.codec);
    WordsAreCanonical(saved.video.encoder);
    WordsAreCanonical(saved.video.profile);
    CompleteIffFixpoint(later, saved);
  }

  /** What is accepted, in numbers and names. */
  lemma AcceptedIff(c: AgentConfig)
    ensures Acceptable(c) <==>
              && 1 <= c.endpoints.agentGcsID <= 255
              && (c.video.codec == "vp8" || c.video.codec == "h264" || c.video.codec == "auto")
              && (c.video.encoder == "auto" || c.video.encoder == "v4l2h264enc" || c.video.encoder == "x264enc")
              && (c.video.profile == "baseline" || c.video.profile == "constrained-baseline"
                  || c.video.profile == "main" || c.video.profile == "high")
              && ((c.video.width <= 0 && c.video.height <= 0)
                  || (c.video.width, c.video.height) in
                     [(320, 180), (640, 360), (854, 480), (960, 540), (1280, 720), (1920, 1080)])
              && (c.video.fps <= 0 || c.video.fps in [5, 10, 15, 20, 24, 25, 30])
              && 100_000 <= c.rates.h264 <= 20_000_000
              && 50_000 <= c.rates.min <= c.rates.start <= c.rates.max <= 20_000_000
              && 100 <= c.failsafe.controlTimeoutMs <= 5000 && 100 <= c.failsafe.reissueStopMs <= 5000
              && 1000 <= c.failsafe.throttleStopPwm <= 2000 && 1000 <= c.failsafe.steeringStopPwm <= 2000
  {
  }

  /** How codec, encoder and profile are spelled, in capitals or with white space around, makes no
      difference to what is saved. */
  lemma SpellingIsForgotten(c: AgentConfig, codec: string, encoder: string, profile: string)
    requires ToLower(TrimSpace(codec)) == ToLower(TrimSpace(c.video.codec))
    requires ToLower(TrimSpace(encoder)) == ToLower(TrimSpace(c.video.encoder))
    requires ToLower(TrimSpace(profile)) == ToLower(TrimSpace(c.video.profile))
    ensures Lowered(c.(video := c.video.(codec := codec, encoder := encoder, profile := profile))) == Lowered(c)
  {
  }

  // ---------- the default values ----------

  /** A configuration that sets nothing becomes this one, without JANUS_URL. */
  lemma EmptyGetsDefaults(env: Env, c: AgentConfig)
    requires c.endpoints == Endpoints("", "", "", "", 0) && c.flags == Flags(false, None, None, None, false, "")
    requires c.video == Video("", "", "", None, 0, 0, 0, "") && c.rates == Rates(0, 0, 0, 0)
    requires c.failsafe == Failsafe(0, 0, 0, 0)
    ensures var d := Defaults(env, c);
            && d.endpoints.backendWsURL == "ws://localhost:8080/api/ws/agent"
            && d.endpoints.backendURL == "http://localhost:8080"
            && d.endpoints.mavlinkConnection == "udpclient:127.0.0.1:14551" && d.endpoints.agentGcsID == 255
            && d.flags == Flags(false, Some(true), Some(true), Some(false), false, "THRUST_FWD_REV")
            && d.video == Video("vp8", "auto", "baseline", Some(true), 0, 0, 0, "")
            && d.rates == Rates(2_000_000, 2_000_000, 800_000, 150_000)
            && d.failsafe == Failsafe(450, 500, 1500, 1500)
            && d.pairing == c.pairing && d.other == c.other
  {
    TrimmedIsFixed("");
    assert ToUpper("") == "";
    DefaultRatesInNumbers("vp8", c.rates);
  }

  /** What is set stays, field by field; the rest of the record is never touched. */
  lemma SetFieldsStay(env: Env, c: AgentConfig)
    ensures var d := Defaults(env, c);
            && d.pairing == c.pairing && d.other == c.other
            && d.flags.allowControl == c.flags.allowControl && d.flags.allowAircraft == c.flags.allowAircraft
            && (c.flags.includeGps.Some? ==> d.flags.includeGps == c.flags.includeGps)
            && (c.flags.allowGoto.Some? ==> d.flags.allowGoto == c.flags.allowGoto)
            && (c.flags.allowRcOverride.Some? ==> d.flags.allowRcOverride == c.flags.allowRcOverride)
            && (c.video.preferMjpg.Some? ==> d.video.preferMjpg == c.video.preferMjpg)
            && (TrimSpace(c.video.codec) != "" ==> d.video.codec == c.video.codec)
            && (TrimSpace(c.video.encoder) != "" ==> d.video.encoder == c.video.encoder)
            && (TrimSpace(c.video.profile) != "" ==> d.video.profile == c.video.profile)
            && d.video.width == c.video.width && d.video.height == c.video.height && d.video.fps == c.video.fps
            && d.video.pixFmt == c.video.pixFmt
            && (TrimSpace(c.endpoints.backendWsURL) != "" ==> d.endpoints.backendWsURL == c.endpoints.backendWsURL)
            && (TrimSpace(c.endpoints.backendURL) != "" ==> d.endpoints.backendURL == c.endpoints.backendURL)
            && (TrimSpace(c.endpoints.mavlinkConnection) != "" ==>
                  d.endpoints.mavlinkConnection == c.endpoints.mavlinkConnection)
            && (c.endpoints.agentGcsID != 0 ==> d.endpoints.agentGcsID == c.endpoints.agentGcsID)
            && (c.rates.h264 > 0 ==> d.rates.h264 == c.rates.h264) && (c.rates.max > 0 ==> d.rates.max == c.rates.max)
            && (c.rates.start > 0 ==> d.rates.start == c.rates.start)
            && (c.rates.min > 0 ==> d.rates.min == c.rates.min)
            && (c.failsafe.controlTimeoutMs > 0 ==> d.failsafe.controlTimeoutMs == c.failsafe.controlTimeoutMs)
            && (c.failsafe.reissueStopMs > 0 ==> d.failsafe.reissueStopMs == c.failsafe.reissueStopMs)
            && (c.failsafe.throttleStopPwm != 0 ==> d.failsafe.throttleStopPwm == c.failsafe.throttleStopPwm)
            && (c.failsafe.steeringStopPwm != 0 ==> d.failsafe.steeringStopPwm == c.failsafe.steeringStopPwm)
  {
  }

  /** The rates hang on one another: the H.264 rate on the codec, in any case; the maximum on that;
      the start and the minimum are 800 and 150 kbit/s, or what limits them if that is less. */
  lemma DefaultRatesInNumbers(codec: string, r: Rates)
    ensures var d := RateDefaults(codec, r);
            && (r.h264 <= 0 ==> d.h264 == if ToUpper(codec) in ["H264", "AUTO"] then 1_500_000 else 2_000_000)
            && (r.max <= 0 ==> d.max == d.h264)
            && (r.start <= 0 ==> d.start <= 800_000 && d.start <= d.max && (d.start == 800_000 || d.start == d.max))
            && (r.min <= 0 ==> d.min <= 150_000 && d.min <= d.start && (d.min == 150_000 || d.min == d.start))
  {
    FoldedEqual(codec, "h264");
    FoldedEqual(codec, "auto");
    assert ToUpper("h264") == "H264" && ToUpper("auto") == "AUTO";
  }

  /** Where the Janus URL comes from: the configuration, then JANUS_URL, then the host of the backend
      URL, with wss exactly for https, then the local server. */
  lemma JanusOrder(env: Env, given: string, backend: string)
    ensures TrimSpace(given) != "" ==> JanusURL(env, given, backend) == given
    ensures TrimSpace(given) == "" && TrimSpace(env.janusURL) != "" ==>
              JanusURL(env, given, backend) == TrimSpace(env.janusURL)
    ensures TrimSpace(given) == "" && TrimSpace(env.janusURL) == "" ==>
              var host := if backend != "" && env.parse(backend).Some? then env.parse(backend).value.host else "";
              JanusURL(env, given, backend) ==
              if host == "" then "ws://localhost:8188/janus"
              else if env.parse(backend).value.scheme == "https" then "wss://" + host + "/janus"
              else "ws://" + host + "/janus"
  {
    if backend != "" && env.parse(backend).Some? {
      var host := env.parse(backend).value.host;
      assert "wss" + "://" + host + "/janus" == "wss://" + host + "/janus";
      assert "ws" + "://" + host + "/janus" == "ws://" + host + "/janus";
    }
  }

  /** The thrust mode that persists is forward-only exactly for its two spellings, in any case and
      with white space around. */
  lemma ThrustModeIsOnlyIff(s: string)
    ensures ThrustMode(s) == "THRUST_FWD_ONLY" <==> ToLower(TrimSpace(s)) in ["thrust_fwd_only", "fwd_only"]
    ensures ThrustMode(s) == "THRUST_FWD_ONLY" || ThrustMode(s) == "THRUST_FWD_REV"
  {
    var t := TrimSpace(s);
    ForwardOnlyFolds();
    FoldedEqual(t, "thrust_fwd_only");
    FoldedEqual(t, "fwd_only");
    OnlyTwoSpellings(t);
  }

  lemma OnlyTwoSpellings(t: string)
    ensures var m := if ToUpper(t) in ["THRUST_FWD_ONLY", "FWD_ONLY"] then "THRUST_FWD_ONLY" else "THRUST_FWD_REV";
            m == "THRUST_FWD_ONLY" <==> ToUpper(t) in ["THRUST_FWD_ONLY", "FWD_ONLY"]
  {
    assert |"THRUST_FWD_ONLY"| == 15 && |"THRUST_FWD_REV"| == 14;
  }

  lemma ForwardOnlyFolds()
    ensures ToUpper("thrust_fwd_only") == "THRUST_FWD_ONLY" && ToLower("thrust_fwd_only") == "thrust_fwd_only"
    ensures ToUpper("fwd_only") == "FWD_ONLY" && ToLower("fwd_only") == "fwd_only"
  {
  }

  /** Saving what was saved is accepted again and changes nothing. */
  lemma SaveIsIdempotent(env: Env, later: Env, c: AgentConfig)
    requires Acceptable(Lowered(Defaults(env, c)))
    ensures var saved := Lowered(Defaults(env, c)); Lowered(Defaults(later, saved)) == saved
  {
    var saved := Lowered(Defaults(env, c));
    AcceptedReloads(env, later, c);
    WordsAreCanonical(saved.video.codec);
    WordsAreCanonical(saved.video.encoder);
    WordsAreCanonical(saved.video.profile);
  }

  // ---------- the store ----------

  /** A configuration object; callers share it and the code assigns its fields in place. */
  class ConfigCell {
    var pairing: Pairing
    var endpoints: Endpoints
    var flags: Flags
    var video: Video
    var rates: Rates
    var failsafe: Failsafe
    var other: Other

    function Data(): AgentConfig
      reads this
    {
      AgentConfig(pairing, endpoints, flags, video, rates, failsafe, other)
    }

    constructor (c: AgentConfig)
      ensures Data() == c
    {
      pairing, endpoints, flags, video, rates, failsafe, other :=
        c.pairing, c.endpoints, c.flags, c.video, c.rates, c.failsafe, c.other;
    }

    method ApplyDefaults(env: Env)
      modifies this
      ensures Data() == Defaults(env, old(Data()))
    {
      DefaultNames();
      DefaultRates();
      DefaultFailsafe();
      DefaultJanus(env);
    }

    method DefaultNames()
      modifies this`endpoints, this`flags, this`video
      ensures endpoints == PlainEndpoints(old(endpoints)) && flags == FlagDefaults(old(flags))
          && video == VideoDefaults(old(video))
    {
      DefaultEndpoints();
      DefaultFlags();
      DefaultVideo();
    }

    method DefaultEndpoints()
      modifies this`endpoints
      ensures endpoints == PlainEndpoints(old(endpoints))
    {
      if endpoints.agentGcsID == 0 {
        endpoints := endpoints.(agentGcsID := 255);
      }
      if TrimSpace(endpoints.backendWsURL) == "" {
        endpoints := endpoints.(backendWsURL := "ws://localhost:8080/api/ws/agent");
      }
      if TrimSpace(endpoints.backendURL) == "" {
        endpoints := endpoints.(backendURL := "http://localhost:8080");
      }
      if TrimSpace(endpoints.mavlinkConnection) == "" {
        endpoints := endpoints.(mavlinkConnection := "udpclient:127.0.0.1:14551");
      }
    }

    method DefaultFlags()
      modifies this`flags
      ensures flags == FlagDefaults(old(flags))
    {
      if flags.includeGps.None? {
        flags := flags.(includeGps := Some(true));
      }
      if flags.allowGoto.None? {
        flags := flags.(allowGoto := Some(true));
      }
      if flags.allowRcOverride.None? {
        flags := flags.(allowRcOverride := Some(false));
      }
      DefaultThrustMode();
    }

    /** Blank, legacy and unknown values all end up as one of the two persisted ones. */
    method DefaultThrustMode()
      modifies this`flags
      ensures flags == old(flags).(thrustMode := ThrustMode(old(flags).thrustMode))
    {
      if TrimSpace(flags.thrustMode) == "" {
        flags := flags.(thrustMode := "THRUST_FWD_REV");
      }
      ThrustModeIsCanonical(flags.thrustMode);
      var m := ToUpper(TrimSpace(flags.thrustMode));
      if m == "THRUST_FWD_REV" || m == "THRUST_FWD_ONLY" {
        flags := flags.(thrustMode := m);
      } else if m == "FWD_REV" {
        flags := flags.(thrustMode := "THRUST_FWD_REV");
      } else if m == "FWD_ONLY" {
        flags := flags.(thrustMode := "THRUST_FWD_ONLY");
      } else {
        flags := flags.(thrustMode := "THRUST_FWD_REV");
      }
    }

    method DefaultVideo()
      modifies this`video
      ensures video == VideoDefaults(old(video))
    {
      if TrimSpace(video.codec) == "" {
        video := video.(codec := "vp8");
      }
      if TrimSpace(video.encoder) == "" {
        video := video.(encoder := "auto");
      }
      if TrimSpace(video.profile) == "" {
        video := video.(profile := "baseline");
      }
      if video.preferMjpg.None? {
        video := video.(preferMjpg := Some(true));
      }
    }

    method DefaultRates()
      modifies this`rates
      ensures rates == RateDefaults(video.codec, old(rates))
    {
      if rates.h264 <= 0 {
        var h264 := EqualFold(video.codec, "h264") || EqualFold(video.codec, "auto");
        rates := rates.(h264 := if h264 then 1_500_000 else 2_000_000);
      }
      if rates.max <= 0 {
        rates := rates.(max := rates.h264);
      }
      if rates.start <= 0 {
        rates := rates.(start := 800_000);
        if rates.start > rates.max {
          rates := rates.(start := rates.max);
        }
      }
      if rates.min <= 0 {
        rates := rates.(min := 150_000);
        if rates.min > rates.start {
          rates := rates.(min := rates.start);
        }
      }
    }

    method DefaultFailsafe()
      modifies this`failsafe
      ensures failsafe == FailsafeDefaults(old(failsafe))
    {
      if failsafe.controlTimeoutMs <= 0 {
        failsafe := failsafe.(controlTimeoutMs := 450);
      }
      if failsafe.reissueStopMs <= 0 {
        failsafe := failsafe.(reissueStopMs := 500);
      }
      if failsafe.throttleStopPwm == 0 {
        failsafe := failsafe.(throttleStopPwm := 1500);
      }
      if failsafe.steeringStopPwm == 0 {
        failsafe := failsafe.(steeringStopPwm := 1500);
      }
    }

    method DefaultJanus(env: Env)
      modifies this`endpoints
      ensures endpoints == WithJanus(env, old(endpoints))
    {
      if TrimSpace(endpoints.janusURL) == "" {
        var v := TrimSpace(env.janusURL);
        var j := DeriveJanusFromBackend(env, endpoints.backendURL);
        if v != "" {
          endpoints := endpoints.(janusURL := v);
        } else if j != "" {
          endpoints := endpoints.(janusURL := j);
        } else {
          endpoints := endpoints.(janusURL := "ws://localhost:8188/janus");
        }
      }
    }

    static method DeriveJanusFromBackend(env: Env, backend: string) returns (url: string)
      ensures url == DeriveJanus(env, backend)
    {
      if backend == "" {
        return "";
      }
      var parsed := env.parse(backend);
      if parsed.None? || parsed.value.host == "" {
        return "";
      }
      var scheme := "ws";
      if parsed.value.scheme == "https" {
        scheme := "wss";
      }
      url := scheme + "://" + parsed.value.host + "/janus";
    }

    /** The checks SaveConfig makes on a defaulted and normalised object. */
    method Check() returns (ok: bool)
      requires !Blank(endpoints.mavlinkConnection) && flags.thrustMode in {"THRUST_FWD_REV", "THRUST_FWD_ONLY"}
      ensures ok <==> Acceptable(Data())
    {
      ThrustModeIsCanonical(flags.thrustMode);
      if endpoints.agentGcsID < 1 || endpoints.agentGcsID > 255 || TrimSpace(endpoints.mavlinkConnection) == "" {
        return false;
      }
      var mode := ToUpper(TrimSpace(flags.thrustMode));
      if mode != "THRUST_FWD_REV" && mode != "THRUST_FWD_ONLY" {
        return false;
      }
      ok := CheckVideo();
      if ok {
        ok := CheckRates();
      }
      if ok {
        ok := CheckFailsafe();
      }
    }

    /** The last test, the envelope of the hardware encoder, never fires: the lists before it already
        rule out everything beyond 1080p30. */
    method CheckVideo() returns (ok: bool)
      ensures ok <==> VideoOk(video)
    {
      if video.profile !in {"baseline", "constrained-baseline", "main", "high"} {
        return false;
      }
      if video.codec !in {"vp8", "h264", "auto"} {
        return false;
      }
      if video.encoder !in {"auto", "v4l2h264enc", "x264enc"} {
        return false;
      }
      ok := CheckSize();
      if ok {
        EnvelopeIsImplied(video);
        var hardware := (EqualFold(video.codec, "h264") || EqualFold(video.codec, "auto"))
                        && (EqualFold(video.encoder, "auto") || EqualFold(video.encoder, "v4l2h264enc"));
        if hardware && video.width == 1920 && video.height == 1080 && video.fps > 30 {
          return false;
        }
        if hardware && (video.width > 1920 || video.height > 1080) {
          return false;
        }
      }
    }

    method CheckSize() returns (ok: bool)
      ensures ok <==> SizeOk(video)
    {
      if video.width > 0 || video.height > 0 {
        if video.width <= 0 || video.height <= 0 {
          return false;
        }
        if (video.width, video.height) !in RESOLUTIONS {
          return false;
        }
      }
      if video.fps > 0 {
        match video.fps {
          case 5 => return true;
          case 10 => return true;
          case 15 => return true;
          case 20 => return true;
          case 24 => return true;
          case 25 => return true;
          case 30 => return true;
          case _ => return false;
        }
      }
      return true;
    }

    method CheckRates() returns (ok: bool)
      ensures ok <==> RatesOk(rates)
    {
      if rates.h264 < 100_000 || rates.h264 > 20_000_000 {
        return false;
      }
      if rates.min < 50_000 || rates.min > 20_000_000 {
        return false;
      }
      if rates.start < 50_000 || rates.start > 20_000_000 {
        return false;
      }
      if rates.max < 50_000 || rates.max > 20_000_000 {
        return false;
      }
      if rates.min > rates.start {
        return false;
      }
      if rates.start > rates.max {
        return false;
      }
      return true;
    }

    method CheckFailsafe() returns (ok: bool)
      ensures ok <==> FailsafeOk(failsafe)
    {
      if failsafe.controlTimeoutMs < 100 || failsafe.controlTimeoutMs > 5000 {
        return false;
      }
      if failsafe.reissueStopMs < 100 || failsafe.reissueStopMs > 5000 {
        return false;
      }
      if failsafe.throttleStopPwm < 1000 || failsafe.throttleStopPwm > 2000 {
        return false;
      }
      if failsafe.steeringStopPwm < 1000 || failsafe.steeringStopPwm > 2000 {
        return false;
      }
      return true;
    }
  }

  /** The configuration file and the package-level reference to the configuration in use. */
  class Store {
    var file: Option<AgentConfig>
    var global: ConfigCell?

    constructor ()
      ensures file == None && global == null
    {
      file, global := None, null;
    }

    method LoadConfig(env: Env) returns (cell: ConfigCell?)
      modifies this
      ensures file == old(file)
      ensures old(file).None? ==> cell == null && global == old(global)
      ensures old(file).Some? ==> cell != null && fresh(cell) && global == cell
      ensures old(file).Some? ==> cell.Data() == Defaults(env, old(file).value)
    {
      if file.None? {
        return null;
      }
      var c := new ConfigCell(file.value);
      c.ApplyDefaults(env);
      cell, global := c, c;
    }

    /** written tells whether the file system took the new file. The passed object is defaulted and
        normalised even when it is rejected; the file and the global reference then stay as they are. */
    method SaveConfig(env: Env, cell: ConfigCell, written: bool) returns (ok: bool)
      modifies this, cell
      ensures cell.Data() == Lowered(Defaults(env, old(cell.Data())))
      ensures var v := Defaults(env, old(cell.Data())).video;
              cell.video == v.(codec := ToLower(TrimSpace(v.codec)), encoder := ToLower(TrimSpace(v.encoder)),
                               profile := ToLower(TrimSpace(v.profile)))
      ensures ok <==> written && Acceptable(cell.Data())
      ensures if ok then file == Some(cell.Data()) && global == cell else file == old(file) && global == old(global)
    {
      DefaultsAreComplete(env, cell.Data());
      cell.ApplyDefaults(env);
      cell.video := cell.video.(codec := ToLower(TrimSpace(cell.video.codec)));
      cell.video := cell.video.(encoder := ToLower(TrimSpace(cell.video.encoder)));
      cell.video := cell.video.(profile := ToLower(TrimSpace(cell.video.profile)));
      ok := cell.Check();
      if !ok || !written {
        return false;
      }
      file, global := Some(cell.Data()), cell;
    }

    method SaveConfigUnvalidated(env: Env, cell: ConfigCell, written: bool) returns (ok: bool)
      modifies this, cell
      ensures cell.Data() == Defaults(env, old(cell.Data())) && ok == written
      ensures if ok then file == Some(cell.Data()) && global == cell else file == old(file) && global == old(global)
    {
      cell.ApplyDefaults(env);
      if !written {
        return false;
      }
      file, global := Some(cell.Data()), cell;
      return true;
    }

    /** Pairing confirmed: the configuration in use gets its token and id and is saved without
        validation. Whether or not the file was written, these two fields have changed, and nothing
        else if no default was missing. */
    method SavePairing(env: Env, token: string, mavID: string, written: bool) returns (ok: bool)
      requires global != null
      modifies this, global
      ensures global == old(global) && ok == written
      ensures global.Data() == Defaults(env, old(global.Data()).(pairing := Pairing(mavID, token)))
      ensures global.Data().pairing == Pairing(mavID, token) && Complete(global.Data())
      ensures old(Complete(global.Data())) <==> global.Data() == old(global.Data()).(pairing := Pairing(mavID, token))
      ensures file == if written then Some(global.Data()) else old(file)
    {
      var cell := global;
      cell.pairing := Pairing(mavID, token);
      CompleteIffFixpoint(env, cell.Data());
      DefaultsAreComplete(env, cell.Data());
      ok := SaveConfigUnvalidated(env, cell, written);
    }
  }

  /** A configuration that was ever loaded, then paired and saved, reloads with just the pairing
      changed, even one that validation would refuse. */
  lemma PairingReloads(env: Env, later: Env, c: AgentConfig, p: Pairing)
    ensures var paired := Defaults(env, c).(pairing := p); Defaults(later, paired) == paired
  {
    DefaultsAreComplete(env, c);
    CompleteIffFixpoint(later, Defaults(env, c).(pairing := p));
  }
}
