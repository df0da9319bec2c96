/** What the attempt list of pkg/stream/janusvr_sink.go means for a given configuration, camera and set
    of available elements, said in terms of these alone. */
module AttemptList {
  import opened Common
  import opened Ladder
  import opened Strings
  import opened VideoModes
  import Sorting

  predicate WantsH264Only(conf: VideoConf) {
    ToLower(TrimSpace(conf.codec)) == "h264"
  }

  predicate WantsVp8Only(conf: VideoConf) {
    ToLower(TrimSpace(conf.codec)) == "vp8"
  }

  /** The camera lists rates for size w by h in MJPG or YUYV, or in H.264 if that is asked for. */
  ghost predicate CameraHas(conf: VideoConf, modes: seq<VideoMode>, w: int, h: int) {
    exists m | m in modes ::
      && m.w == w > 0 && m.h == h > 0 && m.fps != []
      && (ToUpper(TrimSpace(m.pixFmt)) in {"MJPG", "YUYV"}
          || (WantsH264Only(conf) && ToUpper(TrimSpace(m.pixFmt)) == "H264"))
  }

  ghost predicate CameraHasAny(conf: VideoConf, caps: Option<seq<VideoMode>>) {
    caps.Some? && exists w, h :: CameraHas(conf, caps.value, w, h)
  }

  /** Size w by h can be attempted: the camera has it, or it is one of the six standard sizes and the
      camera has no usable size at all. */
  ghost predicate Offered(conf: VideoConf, caps: Option<seq<VideoMode>>, w: int, h: int) {
    if CameraHasAny(conf, caps) then CameraHas(conf, caps.value, w, h)
    else (w, h) in {(1920, 1080), (1280, 720), (960, 540), (854, 480), (640, 360), (320, 180)}
  }

  lemma UsableIsHas(conf: VideoConf, modes: seq<VideoMode>, t: Tier)
    ensures Usable(modes, Formats(WantsH264Only(conf)), t) <==> CameraHas(conf, modes, t.w, t.h)
  {
    forall m: VideoMode
      ensures Gives(m, Formats(WantsH264Only(conf)), t) <==>
              && m.w == t.w > 0 && m.h == t.h > 0 && m.fps != []
              && (ToUpper(TrimSpace(m.pixFmt)) in {"MJPG", "YUYV"}
                  || (WantsH264Only(conf) && ToUpper(TrimSpace(m.pixFmt)) == "H264"))
    {
    }
  }

  lemma HasIsATier(conf: VideoConf, modes: seq<VideoMode>, w: int, h: int)
    requires CameraHas(conf, modes, w, h)
    ensures 0 < w < TWO_32 && 0 < h < TWO_32
  {
  }

  /** The tiers are exactly the sizes on offer. */
  lemma TiersAreOffered(conf: VideoConf, caps: Option<seq<VideoMode>>, tiers: seq<Tier>)
    requires IsTiers(conf, caps, tiers)
    ensures forall t :: t in tiers <==> Offered(conf, caps, t.w, t.h)
  {
    if caps.Some? {
      forall t: Tier
        ensures Usable(caps.value, Formats(WantsH264Only(conf)), t) <==> CameraHas(conf, caps.value, t.w, t.h)
      {
        UsableIsHas(conf, caps.value, t);
      }
      if w, h :| CameraHas(conf, caps.value, w, h) {
        HasIsATier(conf, caps.value, w, h);
        assert Usable(caps.value, Formats(WantsH264Only(conf)), Tier(w, h));
      }
    }
  }

  // ---------- the start ----------

  // Up to here every product and square below fits 63 bits; no camera comes near it.
  const CAMERA_SIZE := 0x4000_0000

  /** The camera and the configuration name sizes a camera can have. */
  predicate CameraSized(conf: VideoConf, caps: Option<seq<VideoMode>>) {
    && conf.width <= CAMERA_SIZE && conf.height <= CAMERA_SIZE
    && (caps.Some? ==> forall m | m in caps.value :: m.w <= CAMERA_SIZE && m.h <= CAMERA_SIZE)
  }

  /** How far size w by h is from the configured one, squared; 640 by 360 where nothing is configured. */
  function Off(conf: VideoConf, w: int, h: int): int {
    var dw := w - (if conf.width <= 0 then 640 else conf.width);
    var dh := h - (if conf.height <= 0 then 360 else conf.height);
    dw * dw + dh * dh
  }

  lemma OfferedIsCameraSized(conf: VideoConf, caps: Option<seq<VideoMode>>, w: int, h: int)
    requires CameraSized(conf, caps) && Offered(conf, caps, w, h)
    ensures 0 < w <= CAMERA_SIZE && 0 < h <= CAMERA_SIZE
  {
  }

  lemma OffsetIsOff(conf: VideoConf, t: Tier)
    requires conf.width <= CAMERA_SIZE && conf.height <= CAMERA_SIZE && t.w <= CAMERA_SIZE && t.h <= CAMERA_SIZE
    ensures Offset(t, WantSize(conf).w, WantSize(conf).h) == Off(conf, t.w, t.h)
  {
    var w, h := WantSize(conf).w, WantSize(conf).h;
    SquareBound(Dist(w, t.w));
    SquareBound(Dist(h, t.h));
    SquareOfDist(w, t.w);
    SquareOfDist(h, t.h);
    WrapRange(Dist(w, t.w) * Dist(w, t.w) + Dist(h, t.h) * Dist(h, t.h));
  }

  lemma SquareOfDist(x: int, y: int)
    ensures Dist(x, y) * Dist(x, y) == (y - x) * (y - x)
  {
  }

  lemma OffIsZeroIff(conf: VideoConf, w: int, h: int)
    requires conf.width > 0 && conf.height > 0
    ensures Off(conf, w, h) >= 0
    ensures Off(conf, w, h) == 0 <==> w == conf.width && h == conf.height
  {
    SquarePositive(w - conf.width);
    SquarePositive(h - conf.height);
  }

  lemma SquarePositive(x: int)
    ensures x * x >= 0 && (x * x == 0 <==> x == 0)
  {
  }

  /** The start tier is the offered size nearest to the configured one. */
  lemma StartIsNearest(conf: VideoConf, caps: Option<seq<VideoMode>>, tiers: seq<Tier>, start: nat)
    requires CameraSized(conf, caps) && IsTiers(conf, caps, tiers)
    requires IsStart(tiers, WantSize(conf).w, WantSize(conf).h, start)
    ensures forall w, h | Offered(conf, caps, w, h) :: Off(conf, tiers[start].w, tiers[start].h) <= Off(conf, w, h)
  {
    TiersAreOffered(conf, caps, tiers);
    assert tiers[start] in tiers;
    OfferedIsCameraSized(conf, caps, tiers[start].w, tiers[start].h);
    OffsetIsOff(conf, tiers[start]);
    forall w, h | Offered(conf, caps, w, h)
      ensures Off(conf, tiers[start].w, tiers[start].h) <= Off(conf, w, h)
    {
      OfferedIsCameraSized(conf, caps, w, h);
      assert Tier(w, h) in tiers;
      var j :| 0 <= j < |tiers| && tiers[j] == Tier(w, h);
      OffsetIsOff(conf, tiers[j]);
    }
  }

  // ---------- encoders and formats ----------

  /** Codec and encoder can be tried: VP8 with its one encoder, H.264 unless VP8 alone is asked for,
      with the hardware encoder or x264. */
  predicate CanEncode(conf: VideoConf, elements: set<string>, codec: Codec, enc: string) {
    match codec
    case Vp8 => enc == "" && "vp8enc" in elements
    case H264 => !WantsVp8Only(conf) && enc in elements && (enc == "v4l2h264enc" || enc == "x264enc")
  }

  /** MJPG capture can be tried: it is not switched off, and there is a decoder. */
  predicate CanMjpg(conf: VideoConf, elements: set<string>) {
    conf.preferMjpg != Some(false) && "jpegdec" in elements
  }

  lemma EncodersAre(conf: VideoConf, elements: set<string>)
    ensures forall codec, enc :: CanEncode(conf, elements, codec, enc) <==>
              enc in EncoderList(codec, elements) && (codec == H264 ==> UsesH264(conf))
    ensures CanMjpg(conf, elements) <==> UsesMjpg(conf, elements)
  {
  }

  /** Size t is below size top in the list of sizes: smaller, or as large and narrower. */
  predicate Under(t: Tier, top: Tier) {
    t.w * t.h < top.w * top.h || (t.w * t.h == top.w * top.h && t.w < top.w)
  }

  lemma UnderIsLarger(t: Tier, top: Tier)
    requires t.w <= CAMERA_SIZE && t.h <= CAMERA_SIZE && top.w <= CAMERA_SIZE && top.h <= CAMERA_SIZE
    ensures Larger(top, t) <==> Under(t, top)
  {
    ProductIsSmall(t);
    ProductIsSmall(top);
    AreaIsExactIff(t);
    AreaIsExactIff(top);
  }

  lemma ProductIsSmall(t: Tier)
    requires t.w <= CAMERA_SIZE && t.h <= CAMERA_SIZE
    ensures t.w * t.h <= MAX_INT64
  {
    MulMono(t.w, t.h, CAMERA_SIZE);
    MulMono(CAMERA_SIZE, t.w, CAMERA_SIZE);
    assert t.w * CAMERA_SIZE == CAMERA_SIZE * t.w;
  }

  // ---------- what is attempted ----------

  /** The attempts at the tiers from the start on, codec by codec. */
  lemma AttemptsAt(conf: VideoConf, caps: Option<seq<VideoMode>>, elements: set<string>, tiers: seq<Tier>, start: nat,
                   rates: seq<int>, out: seq<Attempt>, a: Attempt)
    requires IsAttempts(conf, caps, elements, tiers, start, rates, out)
    ensures a in out <==>
              && CanEncode(conf, elements, a.codec, a.enc) && (a.mjpg ==> CanMjpg(conf, elements))
              && exists k | 0 <= k < |rates| :: a.tier == tiers[start + k] && a.fps == rates[k]
  {
    EncodersAre(conf, elements);
    forall k | 0 <= k < |rates|
      ensures tiers[start..][k] == tiers[start + k]
    {
    }
    assert forall codec, encs, mjpg :: Belongs(a, codec, encs, mjpg, tiers[start..], rates) <==>
        && a.codec == codec && a.enc in encs && (a.mjpg ==> mjpg)
        && exists k | 0 <= k < |rates| :: a.tier == tiers[start + k] && a.fps == rates[k];
  }

  /** The first attempt is at the start tier. */
  lemma FirstIsAtStart(conf: VideoConf, caps: Option<seq<VideoMode>>, elements: set<string>, tiers: seq<Tier>,
                       start: nat, rates: seq<int>, out: seq<Attempt>)
    requires IsAttempts(conf, caps, elements, tiers, start, rates, out) && out != []
    ensures out[0].tier == tiers[start]
  {
    var a := out[0];
    AttemptsAt(conf, caps, elements, tiers, start, rates, out, a);
    var k :| 0 <= k < |rates| && a.tier == tiers[start + k] && a.fps == rates[k];
    var b := Attempt(a.codec, a.enc, false, tiers[start + 0], rates[0]);
    AttemptsAt(conf, caps, elements, tiers, start, rates, out, b);
    var i :| 0 <= i < |out| && out[i] == b;
    LargerIsWeakOrder();
    StartIsLargest(conf, caps, tiers, start, start + k);
  }

  lemma StartIsLargest(conf: VideoConf, caps: Option<seq<VideoMode>>, tiers: seq<Tier>, start: nat, k: nat)
    requires IsTiers(conf, caps, tiers) && start <= k < |tiers|
    ensures k > start ==> Larger(tiers[start], tiers[k])
  {
    TiersDescend(conf, caps, tiers);
  }

  lemma TiersDescend(conf: VideoConf, caps: Option<seq<VideoMode>>, tiers: seq<Tier>)
    requires IsTiers(conf, caps, tiers)
    ensures Sorting.StrictlySorted(tiers, Larger)
  {
    FallbackIsSorted();
  }

  /** The tiers from the start on are the offered sizes not above it. */
  lemma ReachedIff(conf: VideoConf, caps: Option<seq<VideoMode>>, tiers: seq<Tier>, start: nat, t: Tier)
    requires CameraSized(conf, caps) && IsTiers(conf, caps, tiers) && start < |tiers|
    ensures (exists k :: start <= k < |tiers| && tiers[k] == t) <==>
              Offered(conf, caps, t.w, t.h) && (t == tiers[start] || Under(t, tiers[start]))
  {
    TiersAreOffered(conf, caps, tiers);
    TiersDescend(conf, caps, tiers);
    LargerIsWeakOrder();
    assert tiers[start] in tiers;
    OfferedIsCameraSized(conf, caps, tiers[start].w, tiers[start].h);
    if Offered(conf, caps, t.w, t.h) {
      OfferedIsCameraSized(conf, caps, t.w, t.h);
      UnderIsLarger(t, tiers[start]);
      var k :| 0 <= k < |tiers| && tiers[k] == t;
    }
  }

  /** Exactly what is attempted, over configuration, camera and elements alone: the list starts at the
      offered size nearest to the configured one, and holds every possible encoder, raw and with
      MJPG where possible, at exactly the offered sizes not above that one. */
  lemma AttemptedIff(conf: VideoConf, caps: Option<seq<VideoMode>>, elements: set<string>, out: seq<Attempt>,
                     codec: Codec, enc: string, mjpg: bool, t: Tier)
    requires CameraSized(conf, caps) && Attempts(conf, caps, elements, out) && out != []
    ensures Offered(conf, caps, out[0].tier.w, out[0].tier.h)
    ensures forall w, h | Offered(conf, caps, w, h) :: Off(conf, out[0].tier.w, out[0].tier.h) <= Off(conf, w, h)
    ensures (exists fps :: Attempt(codec, enc, mjpg, t, fps) in out) <==>
              && CanEncode(conf, elements, codec, enc) && (mjpg ==> CanMjpg(conf, elements))
              && Offered(conf, caps, t.w, t.h) && (t == out[0].tier || Under(t, out[0].tier))
  {
    var tiers, start: nat, rates :| IsAttempts(conf, caps, elements, tiers, start, rates, out);
    FirstIsAtStart(conf, caps, elements, tiers, start, rates, out);
    StartIsNearest(conf, caps, tiers, start);
    ReachedIff(conf, caps, tiers, start, tiers[start]);
    ReachedIff(conf, caps, tiers, start, t);
    TriedIff(conf, caps, elements, tiers, start, rates, out, codec, enc, mjpg, t);
  }

  lemma TriedIff(conf: VideoConf, caps: Option<seq<VideoMode>>, elements: set<string>, tiers: seq<Tier>, start: nat,
                 rates: seq<int>, out: seq<Attempt>, codec: Codec, enc: string, mjpg: bool, t: Tier)
    requires IsAttempts(conf, caps, elements, tiers, start, rates, out)
    ensures (exists fps :: Attempt(codec, enc, mjpg, t, fps) in out) <==>
              && CanEncode(conf, elements, codec, enc) && (mjpg ==> CanMjpg(conf, elements))
              && exists k :: start <= k < |tiers| && tiers[k] == t
  {
    if fps :| Attempt(codec, enc, mjpg, t, fps) in out {
      AttemptsAt(conf, caps, elements, tiers, start, rates, out, Attempt(codec, enc, mjpg, t, fps));
    }
    if k: nat :| start <= k < |tiers| && tiers[k] == t {
      var i := k - start;
      assert t == tiers[start + i];
      AttemptsAt(conf, caps, elements, tiers, start, rates, out, Attempt(codec, enc, mjpg, t, rates[i]));
    }
  }

  /** Without any possible encoder, and only then, there is nothing to attempt. */
  lemma NothingToTryIff(conf: VideoConf, caps: Option<seq<VideoMode>>, elements: set<string>, out: seq<Attempt>)
    requires Attempts(conf, caps, elements, out)
    ensures out == [] <==>
              "vp8enc" !in elements && (WantsVp8Only(conf) || ("v4l2h264enc" !in elements && "x264enc" !in elements))
  {
    var tiers, start: nat, rates :| IsAttempts(conf, caps, elements, tiers, start, rates, out);
    if out != [] {
      AttemptsAt(conf, caps, elements, tiers, start, rates, out, out[0]);
    } else {
      forall codec, enc
        ensures !CanEncode(conf, elements, codec, enc)
      {
        var a := Attempt(codec, enc, false, tiers[start + 0], rates[0]);
        AttemptsAt(conf, caps, elements, tiers, start, rates, out, a);
      }
      assert !CanEncode(conf, elements, Vp8, "") && !CanEncode(conf, elements, H264, "x264enc")
        && !CanEncode(conf, elements, H264, "v4l2h264enc");
    }
  }

  /** A configured size on offer is attempted first, and nothing above it is attempted at all. */
  lemma ExactSizeComesFirst(conf: VideoConf, caps: Option<seq<VideoMode>>, elements: set<string>, out: seq<Attempt>)
    requires CameraSized(conf, caps) && Attempts(conf, caps, elements, out) && out != []
    requires conf.width > 0 && conf.height > 0 && Offered(conf, caps, conf.width, conf.height)
    ensures out[0].tier == Tier(conf.width, conf.height)
    ensures forall a | a in out :: a.tier == out[0].tier || Under(a.tier, out[0].tier)
  {
    OfferedIsCameraSized(conf, caps, conf.width, conf.height);
    AttemptedIff(conf, caps, elements, out, H264, "", false, out[0].tier);
    OffIsZeroIff(conf, out[0].tier.w, out[0].tier.h);
    OffIsZeroIff(conf, conf.width, conf.height);
    forall a | a in out
      ensures a.tier == out[0].tier || Under(a.tier, out[0].tier)
    {
      AttemptedIff(conf, caps, elements, out, a.codec, a.enc, a.mjpg, a.tier);
      assert Attempt(a.codec, a.enc, a.mjpg, a.tier, a.fps) in out;
    }
  }

  // ---------- rates ----------

  /** The rate asked for: 15 where none is configured, and 30 at most. */
  predicate IsTarget(conf: VideoConf, want: int) {
    && (conf.fps <= 0 ==> want == 15) && (1 <= conf.fps <= 30 ==> want == conf.fps)
    && (conf.fps > 30 ==> want == 30)
  }

  /** m has size t in format pix. */
  predicate InPix(m: VideoMode, t: Tier, pix: string) {
    m.w == t.w && m.h == t.h && ToUpper(TrimSpace(m.pixFmt)) == pix
  }

  ghost predicate SomeInPix(modes: seq<VideoMode>, t: Tier, pix: string) {
    exists m | m in modes :: InPix(m, t, pix)
  }

  /** fps is a rate of some mode of size t in format pix: no rate it lists is closer to want, and none
      as close is higher; want itself if it lists none. */
  ghost predicate RateOf(modes: seq<VideoMode>, t: Tier, pix: string, want: int, fps: int) {
    exists m | m in modes :: InPix(m, t, pix) && NearestRate(m, want, fps)
  }

  ghost predicate NearestRate(m: VideoMode, want: int, fps: int) {
    if m.fps == [] then fps == want
    else
      fps in m.fps && forall g | g in m.fps ::
        var d, e := fps - want, g - want; d * d < e * e || (d * d == e * e && fps >= g)
  }

  lemma SquareOrder(x: nat, y: nat)
    ensures x < y <==> x * x < y * y
    ensures x == y <==> x * x == y * y
  {
    if x < y {
      MulStrict(y, x, y);
      MulMono(x, x, y);
      assert x * y == y * x;
    } else if y < x {
      MulStrict(x, y, x);
      MulMono(y, y, x);
      assert x * y == y * x;
    }
  }

  lemma NearestIs(m: VideoMode, want: int, fps: int)
    requires RateFor(m, want, fps)
    ensures NearestRate(m, want, fps)
  {
    forall g | g in m.fps
      ensures var d, e := fps - want, g - want; d * d < e * e || (d * d == e * e && fps >= g)
    {
      SquareOfDist(want, fps);
      SquareOfDist(want, g);
      SquareOfDist(fps, want);
      SquareOfDist(g, want);
      SquareOrder(Dist(fps, want), Dist(g, want));
    }
  }

  /** The first preferred format that has the size decides; if none has, a mode that lists rates. */
  lemma {:induction false} PrefDecides(modes: seq<VideoMode>, prefs: seq<string>, t: Tier, want: int, fps: int, i: nat)
    requires IsTierRate(Some(modes), prefs, t, want, fps) && i <= |prefs|
    requires forall j: nat | j < i :: !SomeInPix(modes, t, prefs[j])
    requires i < |prefs| ==> SomeInPix(modes, t, prefs[i])
    ensures i < |prefs| ==> RateOf(modes, t, prefs[i], want, fps)
    ensures i == |prefs| ==>
              if exists m :: m in modes && m.w == t.w && m.h == t.h && m.fps != []
              then exists m | m in modes :: m.w == t.w && m.h == t.h && m.fps != [] && NearestRate(m, want, fps)
              else fps == want
    decreases |prefs|
  {
    if prefs == [] {
      FirstAtFinds(modes, t, None);
      if FirstAt(modes, t, None).Some? {
        NearestIs(FirstAt(modes, t, None).value, want, fps);
      }
    } else {
      FirstAtFinds(modes, t, Some(prefs[0]));
      if i == 0 {
        var m := FirstAt(modes, t, Some(prefs[0]));
        NearestIs(m.value, want, fps);
        assert InPix(m.value, t, prefs[0]);
      } else {
        assert !SomeInPix(modes, t, prefs[0]);
        forall m | m in modes
          ensures !Fits(m, t, Some(prefs[0]))
        {
          assert !InPix(m, t, prefs[0]);
        }
        PrefDecides(modes, prefs[1..], t, want, fps, i - 1);
      }
    }
  }

  /** The rate of an attempt, over configuration, camera and elements alone. Without a camera list it
      is the target. Otherwise the formats are looked through in this order: MJPG if it can be tried,
      the configured format unless that is blank, AUTO or MJPG, MJPG, YUYV; the first that has the
      size gives its nearest rate. If none has it, some mode of that size that lists rates does. */
  lemma RateFollowsFormats(conf: VideoConf, caps: Option<seq<VideoMode>>, elements: set<string>, out: seq<Attempt>,
                           a: Attempt) returns (want: int)
    requires Attempts(conf, caps, elements, out) && a in out
    ensures IsTarget(conf, want)
    ensures caps.None? || caps.value == [] ==> a.fps == want
    ensures caps.Some? && caps.value != [] ==>
              var modes, t, pix := caps.value, a.tier, ToUpper(TrimSpace(conf.pixFmt));
              if CanMjpg(conf, elements) && SomeInPix(modes, t, "MJPG") then RateOf(modes, t, "MJPG", want, a.fps)
              else if pix !in {"", "AUTO", "MJPG"} && SomeInPix(modes, t, pix) then RateOf(modes, t, pix, want, a.fps)
              else if SomeInPix(modes, t, "MJPG") then RateOf(modes, t, "MJPG", want, a.fps)
              else if SomeInPix(modes, t, "YUYV") then RateOf(modes, t, "YUYV", want, a.fps)
              else if exists m :: m in modes && m.w == t.w && m.h == t.h && m.fps != []
              then exists m | m in modes :: m.w == t.w && m.h == t.h && m.fps != [] && NearestRate(m, want, a.fps)
              else a.fps == want
  {
    want := WantFps(conf);
    RateIsTierRate(conf, caps, elements, out, a);
    if caps.Some? && caps.value != [] {
      FormatDecides(conf, caps.value, a.tier, CanMjpg(conf, elements), want, a.fps);
    }
  }

  lemma RateIsTierRate(conf: VideoConf, caps: Option<seq<VideoMode>>, elements: set<string>, out: seq<Attempt>,
                       a: Attempt)
    requires Attempts(conf, caps, elements, out) && a in out
    ensures IsTierRate(GoodCaps(caps), Prefs(conf, CanMjpg(conf, elements)), a.tier, WantFps(conf), a.fps)
  {
    EncodersAre(conf, elements);
    var tiers, start: nat, rates :| IsAttempts(conf, caps, elements, tiers, start, rates, out);
    AttemptsAt(conf, caps, elements, tiers, start, rates, out, a);
  }

  /** Where in the list of preferences the first format with the size stands. */
  lemma FormatDecides(conf: VideoConf, modes: seq<VideoMode>, t: Tier, mjpg: bool, want: int, fps: int)
    requires IsTierRate(Some(modes), Prefs(conf, mjpg), t, want, fps)
    ensures var pix := ToUpper(TrimSpace(conf.pixFmt));
            if mjpg && SomeInPix(modes, t, "MJPG") then RateOf(modes, t, "MJPG", want, fps)
            else if pix !in {"", "AUTO", "MJPG"} && SomeInPix(modes, t, pix) then RateOf(modes, t, pix, want, fps)
            else if SomeInPix(modes, t, "MJPG") then RateOf(modes, t, "MJPG", want, fps)
            else if SomeInPix(modes, t, "YUYV") then RateOf(modes, t, "YUYV", want, fps)
            else if exists m :: m in modes && m.w == t.w && m.h == t.h && m.fps != []
            then exists m | m in modes :: m.w == t.w && m.h == t.h && m.fps != [] && NearestRate(m, want, fps)
            else fps == want
  {
    var pix, prefs := ToUpper(TrimSpace(conf.pixFmt)), Prefs(conf, mjpg);
    var own := pix !in {"", "AUTO", "MJPG"};
    var first, rest: nat := if mjpg then 1 else 0, (if mjpg then 1 else 0) + (if own then 1 else 0);
    assert |prefs| == rest + 2 && prefs[rest] == "MJPG" && prefs[rest + 1] == "YUYV";
    assert (mjpg ==> prefs[0] == "MJPG") && (own ==> prefs[first] == pix);
    if mjpg && SomeInPix(modes, t, "MJPG") {
      PrefDecides(modes, prefs, t, want, fps, 0);
    } else if own && SomeInPix(modes, t, pix) {
      PrefDecides(modes, prefs, t, want, fps, first);
    } else if SomeInPix(modes, t, "MJPG") {
      PrefDecides(modes, prefs, t, want, fps, rest);
    } else if SomeInPix(modes, t, "YUYV") {
      PrefDecides(modes, prefs, t, want, fps, rest + 1);
    } else {
      PrefDecides(modes, prefs, t, want, fps, rest + 2);
    }
  }
}
