/** The ordered list of pipeline attempts built by buildVideoAttempts in
    pkg/stream/janusvr_sink.go from the camera modes and the available encoders. */
module Ladder {
  import opened Common
  import opened Strings
  import opened VideoModes
  import Sorting

  datatype Tier = Tier(w: Dim, h: Dim)

  /** The product of the sides in 64-bit arithmetic. */
  function Area(t: Tier): int {
    Wrap64(t.w * t.h)
  }

  /** The comparison of the tier sort: larger area first, then wider. */
  predicate Larger(a: Tier, b: Tier) {
    Area(a) > Area(b) || (Area(a) == Area(b) && a.w > b.w)
  }

  lemma LargerIsWeakOrder()
    ensures Sorting.WeakOrder(Larger)
  {
  }

  /** Among tiers of positive width the comparison separates any two. */
  lemma LargerSeparates(a: Tier, b: Tier)
    requires a.w > 0 && b.w > 0 && a != b
    ensures Larger(a, b) || Larger(b, a)
  {
    ProductFits(a.w, a.h);
    ProductFits(b.w, b.h);
    WrapSeparates(a.w * a.h, b.w * b.h);
    if a.h < b.h {
      MulStrict(a.w, a.h, b.h);
    } else if b.h < a.h {
      MulStrict(a.w, b.h, a.h);
    }
  }

  /** The area is the true product exactly when that fits 63 bits; beyond, it is negative and the
      tier sorts behind every real one. */
  lemma AreaIsExactIff(t: Tier)
    ensures Area(t) == t.w * t.h <==> t.w * t.h <= MAX_INT64
    ensures t.w * t.h > MAX_INT64 ==> Area(t) < 0
  {
    ProductFits(t.w, t.h);
    WrapRange(t.w * t.h);
  }

  lemma ProductFits(w: Dim, h: Dim)
    ensures 0 <= w * h < TWO_64
  {
    MulMono(w, h, TWO_32 - 1);
    MulMono(TWO_32 - 1, w, TWO_32 - 1);
    assert (TWO_32 - 1) * (TWO_32 - 1) < TWO_64;
    assert w * (TWO_32 - 1) == (TWO_32 - 1) * w;
  }

  lemma MulMono(w: int, h: int, k: int)
    requires w >= 0 && 0 <= h <= k
    ensures 0 <= w * h <= w * k
  {
  }

  lemma WrapSeparates(x: int, y: int)
    requires 0 <= x < TWO_64 && 0 <= y < TWO_64
    ensures Wrap64(x) == Wrap64(y) ==> x == y
  {
  }

  lemma MulStrict(w: int, h: int, k: int)
    requires w > 0 && h < k
    ensures w * h < w * k
  {
  }

  // ---------- tiers ----------

  /** m can be used and gives resolution t in one of the formats. */
  predicate Gives(m: VideoMode, formats: set<string>, t: Tier) {
    Norm(m.pixFmt) in formats && m.w > 0 && m.h > 0 && m.fps != [] && t == Tier(m.w, m.h)
  }

  ghost predicate Usable(modes: seq<VideoMode>, formats: set<string>, t: Tier) {
    exists m | m in modes :: Gives(m, formats, t)
  }

  function Formats(preferH264: bool): set<string> {
    if preferH264 then {"H264", "MJPG", "YUYV"} else {"MJPG", "YUYV"}
  }

  /** Exactly the usable resolutions, strictly descending. */
  ghost predicate IsTierList(tiers: seq<Tier>, modes: seq<VideoMode>, formats: set<string>) {
    Sorting.StrictlySorted(tiers, Larger) && forall t :: t in tiers <==> Usable(modes, formats, t)
  }

  /** addModes: the unseen usable resolutions of one format, in the order of the modes. */
  method AddModes(modes: seq<VideoMode>, pix: string, tiers0: seq<Tier>,
      ghost formats: set<string>) returns (tiers: seq<Tier>)
    requires Sorting.NoDuplicates(tiers0) && forall t :: t in tiers0 <==> Usable(modes, formats, t)
    ensures Sorting.NoDuplicates(tiers) && forall t :: t in tiers <==> Usable(modes, formats + {pix}, t)
  {
    tiers := tiers0;
    var seen := set t | t in tiers0;
    for i := 0 to |modes|
      invariant Sorting.NoDuplicates(tiers) && seen == (set t | t in tiers)
      invariant forall t ::
                  t in tiers <==> Usable(modes, formats, t) || exists j | 0 <= j < i :: Gives(modes[j], {pix}, t)
    {
      var m := modes[i];
      var t := Tier(m.w, m.h);
      if Norm(m.pixFmt) != pix || m.w <= 0 || m.h <= 0 || |m.fps| == 0 || t in seen {
        continue;
      }
      assert Gives(m, {pix}, t);
      seen := seen + {t};
      tiers := tiers + [t];
    }
    forall t
      ensures t in tiers <==> Usable(modes, formats + {pix}, t)
    {
      assert forall m :: Gives(m, formats + {pix}, t) <==> Gives(m, formats, t) || Gives(m, {pix}, t);
    }
  }

  /** The tiers the camera offers, sorted. */
  method CapsTiers(modes: seq<VideoMode>, preferH264: bool) returns (tiers: seq<Tier>)
    ensures IsTierList(tiers, modes, Formats(preferH264))
  {
    var list: seq<Tier> := [];
    ghost var formats: set<string> := {};
    if preferH264 {
      list := AddModes(modes, "H264", list, formats);
      formats := formats + {"H264"};
    }
    list := AddModes(modes, "MJPG", list, formats);
    list := AddModes(modes, "YUYV", list, formats + {"MJPG"});
    assert formats + {"MJPG"} + {"YUYV"} == Formats(preferH264);
    LargerIsWeakOrder();
    tiers := Sorting.SortSlice(list, Larger);
    Sorting.MultisetElements(tiers, list);
    Sorting.PermutationKeepsDistinct(list, tiers);
    forall i, j | 0 <= i < j < |tiers|
      ensures Larger(tiers[i], tiers[j])
    {
      assert tiers[i] in list && tiers[j] in list;
      LargerSeparates(tiers[i], tiers[j]);
    }
  }

  /** Canonical tiers: the list depends only on which modes there are, not on their order. */
  lemma TiersAreCanonical(a: seq<Tier>, b: seq<Tier>, modesA: seq<VideoMode>, modesB: seq<VideoMode>,
      formats: set<string>)
    requires IsTierList(a, modesA, formats) && IsTierList(b, modesB, formats) && Sorting.SameElements(modesA, modesB)
    ensures a == b
  {
    forall t
      ensures t in a <==> t in b
    {
      assert Usable(modesA, formats, t) <==> Usable(modesB, formats, t);
    }
    LargerIsWeakOrder();
    Sorting.StrictlySortedUnique(a, b, Larger);
  }

  // ---------- start index ----------

  function Offset(t: Tier, w: int, h: int): int {
    Wrap64(Dist(w, t.w) * Dist(w, t.w) + Dist(h, t.h) * Dist(h, t.h))
  }

  /** i is the first tier closest to the requested size. */
  ghost predicate IsStart(tiers: seq<Tier>, w: int, h: int, i: nat) {
    && i < |tiers|
    && (forall j | 0 <= j < |tiers| :: Offset(tiers[i], w, h) <= Offset(tiers[j], w, h))
    && (forall j | 0 <= j < i :: Offset(tiers[i], w, h) < Offset(tiers[j], w, h))
  }

  lemma StartIsUnique(tiers: seq<Tier>, w: int, h: int, i: nat, j: nat)
    requires IsStart(tiers, w, h, i) && IsStart(tiers, w, h, j)
    ensures i == j
  {
    assert Offset(tiers[i], w, h) == Offset(tiers[j], w, h);
  }

  method StartIndex(tiers: seq<Tier>, w: int, h: int) returns (start: nat)
    requires tiers != []
    ensures IsStart(tiers, w, h, start)
  {
    start := 0;
    var bestScore := MAX_INT64;
    for i := 0 to |tiers|
      invariant start < |tiers| && (bestScore < MAX_INT64 ==> bestScore == Offset(tiers[start], w, h))
      invariant bestScore == MAX_INT64 ==> start == 0
      invariant bestScore <= MAX_INT64 && (bestScore < MAX_INT64 ==> start < i)
      invariant forall j | 0 <= j < i :: bestScore <= Offset(tiers[j], w, h)
      invariant bestScore < MAX_INT64 ==> forall j | 0 <= j < start :: bestScore < Offset(tiers[j], w, h)
    {
      var score := Offset(tiers[i], w, h);
      if score < bestScore {
        bestScore, start := score, i;
      }
    }
    forall j | 0 <= j < |tiers|
      ensures Offset(tiers[j], w, h) <= MAX_INT64
    {
      WrapRange(Dist(w, tiers[j].w) * Dist(w, tiers[j].w) + Dist(h, tiers[j].h) * Dist(h, tiers[j].h));
    }
  }

  // ---------- the rate of a tier ----------

  /** m has resolution t and is in format pix, or lists some rate if no format is asked for. */
  predicate Fits(m: VideoMode, t: Tier, pix: Option<string>) {
    m.w == t.w && m.h == t.h && (if pix.Some? then Norm(m.pixFmt) == pix.value else m.fps != [])
  }

  /** The first mode that fits. */
  function FirstAt(modes: seq<VideoMode>, t: Tier, pix: Option<string>): Option<VideoMode> {
    if modes == [] then None
    else if Fits(modes[0], t, pix) then Some(modes[0])
    else FirstAt(modes[1..], t, pix)
  }

  /** The mode chooseTierFPS takes the rate from: the first at t in the first preferred format
      that has one there, else the first at t that lists any rate. */
  function RateSource(modes: seq<VideoMode>, prefs: seq<string>, t: Tier): Option<VideoMode> {
    if prefs == [] then FirstAt(modes, t, None)
    else match FirstAt(modes, t, Some(prefs[0]))
      case Some(m) => Some(m)
      case None => RateSource(modes, prefs[1..], t)
  }

  /** fps is the rate for t. */
  ghost predicate IsTierRate(caps: Option<seq<VideoMode>>, prefs: seq<string>, t: Tier, want: int, fps: int) {
    match (if caps.None? then None else RateSource(caps.value, prefs, t))
    case None => fps == want
    case Some(m) => RateFor(m, want, fps)
  }

  lemma TierRateIsUnique(caps: Option<seq<VideoMode>>, prefs: seq<string>, t: Tier, want: int, f: int, g: int)
    requires IsTierRate(caps, prefs, t, want, f) && IsTierRate(caps, prefs, t, want, g)
    ensures f == g
  {
  }

  lemma {:induction false} FirstAtSkips(modes: seq<VideoMode>, t: Tier, pix: Option<string>, i: nat)
    requires i <= |modes| && forall j | 0 <= j < i :: !Fits(modes[j], t, pix)
    ensures FirstAt(modes, t, pix) == FirstAt(modes[i..], t, pix)
  {
    if i > 0 {
      FirstAtSkips(modes[1..], t, pix, i - 1);
      assert modes[1..][i - 1..] == modes[i..];
    } else {
      assert modes[0..] == modes;
    }
  }

  method ScanAt(modes: seq<VideoMode>, t: Tier, pix: Option<string>) returns (r: Option<VideoMode>)
    ensures r == FirstAt(modes, t, pix)
  {
    for i := 0 to |modes|
      invariant forall j | 0 <= j < i :: !Fits(modes[j], t, pix)
    {
      if !Fits(modes[i], t, pix) {
        continue;
      }
      FirstAtSkips(modes, t, pix, i);
      return Some(modes[i]);
    }
    FirstAtSkips(modes, t, pix, |modes|);
    return None;
  }

  method ChooseTierFPS(caps: Option<seq<VideoMode>>, prefs: seq<string>, t: Tier, want: int) returns (fps: int)
    ensures IsTierRate(caps, prefs, t, want, fps)
  {
    if caps.None? {
      return want;
    }
    for i := 0 to |prefs|
      invariant RateSource(caps.value, prefs, t) == RateSource(caps.value, prefs[i..], t)
    {
      assert prefs[i..][1..] == prefs[i + 1..];
      var m := ScanAt(caps.value, t, Some(prefs[i]));
      if m.Some? {
        fps := ClosestFPS(m.value.fps, want);
        return;
      }
    }
    var m := ScanAt(caps.value, t, None);
    if m.Some? {
      fps := ClosestFPS(m.value.fps, want);
      return;
    }
    return want;
  }

  /** No two modes share format and resolution, as a listing of the probe guarantees. */
  ghost predicate UniqueModes(modes: seq<VideoMode>) {
    forall m, n | m in modes && n in modes && Norm(m.pixFmt) == Norm(n.pixFmt) && m.w == n.w && m.h == n.h :: m == n
  }

  /** Some mode at t is in a preferred format. */
  ghost predicate HasPreferred(modes: seq<VideoMode>, prefs: seq<string>, t: Tier) {
    exists m, p | m in modes && p in prefs :: m.w == t.w && m.h == t.h && Norm(m.pixFmt) == p
  }

  lemma {:induction false} FirstAtFinds(modes: seq<VideoMode>, t: Tier, pix: Option<string>)
    ensures match FirstAt(modes, t, pix)
            case Some(m) => m in modes && Fits(m, t, pix)
            case None => forall m | m in modes :: !Fits(m, t, pix)
  {
    if modes != [] {
      FirstAtFinds(modes[1..], t, pix);
    }
  }

  /** With unique modes and a preferred one at t, the rate source does not depend on the order. */
  lemma {:induction false} PreferredSourceIsCanonical(a: seq<VideoMode>, b: seq<VideoMode>, prefs: seq<string>, t: Tier)
    requires Sorting.SameElements(a, b) && UniqueModes(a) && HasPreferred(a, prefs, t)
    ensures RateSource(a, prefs, t) == RateSource(b, prefs, t)
  {
    if prefs != [] {
      var pix := Some(prefs[0]);
      FirstAtFinds(a, t, pix);
      FirstAtFinds(b, t, pix);
      if FirstAt(a, t, pix).None? {
        assert HasPreferred(a, prefs[1..], t) by {
          var m, p :| m in a && p in prefs && m.w == t.w && m.h == t.h && Norm(m.pixFmt) == p;
          assert p in prefs[1..];
        }
        PreferredSourceIsCanonical(a, b, prefs[1..], t);
      }
    }
  }

  /** With no preferred mode at t the source is the first mode there that lists a rate. */
  lemma {:induction false} LastResort(modes: seq<VideoMode>, prefs: seq<string>, t: Tier)
    requires !HasPreferred(modes, prefs, t)
    ensures RateSource(modes, prefs, t) == FirstAt(modes, t, None)
  {
    if prefs != [] {
      FirstAtFinds(modes, t, Some(prefs[0]));
      assert prefs[0] in prefs && forall p | p in prefs[1..] :: p in prefs;
      LastResort(modes, prefs[1..], t);
    }
  }

  /** The rates modes at t would give on their own all agree. */
  ghost predicate RatesAgree(modes: seq<VideoMode>, t: Tier, want: int) {
    forall m, n, f, g | m in modes && n in modes && m.w == n.w == t.w && m.h == n.h == t.h && m.fps != [] && n.fps != []
                        && IsClosest(m.fps, want, f) && IsClosest(n.fps, want, g) :: f == g
  }

  /** Exactly when the rate of a tier is the same for every order of the modes: a preferred format
      has the resolution, or all modes there would give the same rate. */
  lemma TierRateIsCanonicalIff(modes: seq<VideoMode>, prefs: seq<string>, t: Tier, want: int)
    requires UniqueModes(modes) && Sorting.NoDuplicates(modes)
    ensures (forall other, f, g | multiset(other) == multiset(modes) && IsTierRate(Some(modes), prefs, t, want, f)
                                  && IsTierRate(Some(other), prefs, t, want, g) :: f == g)
            <==> HasPreferred(modes, prefs, t) || RatesAgree(modes, t, want)
  {
    if HasPreferred(modes, prefs, t) || RatesAgree(modes, t, want) {
      forall other, f, g | multiset(other) == multiset(modes) && IsTierRate(Some(modes), prefs, t, want, f)
                           && IsTierRate(Some(other), prefs, t, want, g)
        ensures f == g
      {
        SameRate(modes, other, prefs, t, want, f, g);
      }
    } else {
      var m, n, f, g :| m in modes && n in modes && m.w == n.w == t.w && m.h == n.h == t.h && m.fps != [] && n.fps != []
        && IsClosest(m.fps, want, f) && IsClosest(n.fps, want, g) && f != g;
      var a := ToFront(modes, m, prefs, t);
      var b := ToFront(modes, n, prefs, t);
      var here := RateSource(modes, prefs, t);
      LastResort(modes, prefs, t);
      FirstAtFinds(modes, t, None);
      assert IsTierRate(Some(a), prefs, t, want, f) && IsTierRate(Some(b), prefs, t, want, g);
      var e := Nearest(here.value.fps, want);
      assert IsTierRate(Some(modes), prefs, t, want, e);
    }
  }

  lemma SameRate(modes: seq<VideoMode>, other: seq<VideoMode>, prefs: seq<string>, t: Tier, want: int, f: int, g: int)
    requires UniqueModes(modes) && multiset(other) == multiset(modes)
    requires HasPreferred(modes, prefs, t) || RatesAgree(modes, t, want)
    requires IsTierRate(Some(modes), prefs, t, want, f) && IsTierRate(Some(other), prefs, t, want, g)
    ensures f == g
  {
    Sorting.MultisetElements(other, modes);
    if HasPreferred(modes, prefs, t) {
      PreferredSourceIsCanonical(modes, other, prefs, t);
    } else {
      assert !HasPreferred(other, prefs, t);
      LastResort(modes, prefs, t);
      LastResort(other, prefs, t);
      FirstAtFinds(modes, t, None);
      FirstAtFinds(other, t, None);
    }
  }

  /** An order of the modes in which m decides the rate of t. */
  lemma ToFront(modes: seq<VideoMode>, m: VideoMode, prefs: seq<string>, t: Tier) returns (other: seq<VideoMode>)
    requires m in modes && m.w == t.w && m.h == t.h && m.fps != [] && !HasPreferred(modes, prefs, t)
    ensures multiset(other) == multiset(modes) && RateSource(other, prefs, t) == Some(m)
  {
    var i :| 0 <= i < |modes| && modes[i] == m;
    assert modes == modes[..i] + [m] + modes[i + 1..];
    other := [m] + (modes[..i] + modes[i + 1..]);
    Sorting.MultisetElements(other, modes);
    assert !HasPreferred(other, prefs, t);
    LastResort(other, prefs, t);
  }

  lemma {:induction false} Nearest(list: seq<int>, want: int) returns (f: int)
    requires list != []
    ensures IsClosest(list, want, f)
  {
    if |list| == 1 {
      f := list[0];
    } else {
      f := Nearest(list[1..], want);
      assert list == [list[0]] + list[1..];
      if Dist(list[0], want) < Dist(f, want) || (Dist(list[0], want) == Dist(f, want) && list[0] > f) {
        f := list[0];
      }
    }
  }

  // ---------- the ladder ----------

  datatype Codec = H264 | Vp8

  // fps is the rate of the tier; enc is empty for VP8.
  datatype Attempt = Attempt(codec: Codec, enc: string, mjpg: bool, tier: Tier, fps: int)

  function EncRank(enc: string): int {
    if enc == "v4l2h264enc" then 0 else 1
  }

  /** The order of attempts: H.264 before VP8, larger tiers first, MJPG before raw capture, the
      hardware encoder before the software one. */
  predicate Before(a: Attempt, b: Attempt) {
    if a.codec != b.codec then a.codec == H264
    else if a.tier != b.tier then Larger(a.tier, b.tier)
    else if a.mjpg != b.mjpg then a.mjpg
    else EncRank(a.enc) < EncRank(b.enc)
  }

  function EncoderList(codec: Codec, elements: set<string>): seq<string> {
    match codec
    case H264 =>
      (if "v4l2h264enc" in elements then ["v4l2h264enc"] else []) + (if "x264enc" in elements then ["x264enc"] else [])
    case Vp8 => if "vp8enc" in elements then [""] else []
  }

  function Each(codec: Codec, encs: seq<string>, mjpg: bool, t: Tier, fps: int): seq<Attempt> {
    seq(|encs|, i requires 0 <= i < |encs| => Attempt(codec, encs[i], mjpg, t, fps))
  }

  /** The attempts of one codec at one tier. */
  function Rung(codec: Codec, encs: seq<string>, mjpg: bool, t: Tier, fps: int): seq<Attempt> {
    (if mjpg then Each(codec, encs, true, t, fps) else []) + Each(codec, encs, false, t, fps)
  }

  /** Exactly the attempts of one codec over these tiers: each tier at its rate, with every
      encoder, raw and (if enabled) MJPG. */
  predicate Belongs(a: Attempt, codec: Codec, encs: seq<string>, mjpg: bool, tiers: seq<Tier>, rates: seq<int>)
    requires |rates| == |tiers|
  {
    && a.codec == codec && a.enc in encs && (a.mjpg ==> mjpg)
    && exists i | 0 <= i < |tiers| :: a.tier == tiers[i] && a.fps == rates[i]
  }

  ghost predicate IsCodecLadder(s: seq<Attempt>, codec: Codec, encs: seq<string>, mjpg: bool, tiers: seq<Tier>,
      rates: seq<int>)
    requires |rates| == |tiers|
  {
    && Sorting.StrictlySorted(s, Before)
    && (forall a :: a in s <==> Belongs(a, codec, encs, mjpg, tiers, rates))
    && |s| == |tiers| * ((if mjpg then 2 else 1) * |encs|)
  }

  predicate EncodersOrdered(encs: seq<string>) {
    forall i, j | 0 <= i < j < |encs| :: EncRank(encs[i]) < EncRank(encs[j])
  }

  lemma RungIsSorted(codec: Codec, encs: seq<string>, mjpg: bool, t: Tier, fps: int)
    requires EncodersOrdered(encs)
    ensures Sorting.StrictlySorted(Rung(codec, encs, mjpg, t, fps), Before)
    ensures forall a :: a in Rung(codec, encs, mjpg, t, fps) <==>
                        a.codec == codec && a.enc in encs && (a.mjpg ==> mjpg) && a.tier == t && a.fps == fps
    ensures |Rung(codec, encs, mjpg, t, fps)| == (if mjpg then 2 else 1) * |encs|
  {
    EachHas(codec, encs, true, t, fps);
    EachHas(codec, encs, false, t, fps);
    var first := if mjpg then Each(codec, encs, true, t, fps) else [];
    Sorting.SortedConcat(first, Each(codec, encs, false, t, fps), Before);
  }

  lemma EachHas(codec: Codec, encs: seq<string>, mjpg: bool, t: Tier, fps: int)
    ensures forall a :: a in Each(codec, encs, mjpg, t, fps) <==>
                        a.codec == codec && a.enc in encs && a.mjpg == mjpg && a.tier == t && a.fps == fps
  {
    forall a: Attempt | a.codec == codec && a.enc in encs && a.mjpg == mjpg && a.tier == t && a.fps == fps
      ensures a in Each(codec, encs, mjpg, t, fps)
    {
      var i :| 0 <= i < |encs| && encs[i] == a.enc;
      assert Each(codec, encs, mjpg, t, fps)[i] == a;
    }
  }

  /** One more tier, smaller than all before it. */
  lemma LadderGrows(s: seq<Attempt>, codec: Codec, encs: seq<string>, mjpg: bool, tiers: seq<Tier>, rates: seq<int>,
      t: Tier, fps: int)
    requires |rates| == |tiers| && IsCodecLadder(s, codec, encs, mjpg, tiers, rates) && EncodersOrdered(encs)
    requires forall u | u in tiers :: u != t && Larger(u, t)
    ensures IsCodecLadder(s + Rung(codec, encs, mjpg, t, fps), codec, encs, mjpg, tiers + [t], rates + [fps])
  {
    var r := Rung(codec, encs, mjpg, t, fps);
    RungIsSorted(codec, encs, mjpg, t, fps);
    forall x, y | x in s && y in r
      ensures Before(x, y)
    {
      assert Belongs(x, codec, encs, mjpg, tiers, rates);
    }
    Sorting.SortedConcat(s, r, Before);
    forall a
      ensures a in s + r <==> Belongs(a, codec, encs, mjpg, tiers + [t], rates + [fps])
    {
      if Belongs(a, codec, encs, mjpg, tiers, rates) {
        var i :| 0 <= i < |tiers| && a.tier == tiers[i] && a.fps == rates[i];
        assert (tiers + [t])[i] == a.tier && (rates + [fps])[i] == a.fps;
      }
      if a in r {
        assert (tiers + [t])[|tiers|] == a.tier && (rates + [fps])[|tiers|] == a.fps;
      }
    }
    var k := (if mjpg then 2 else 1) * |encs|;
    assert (|tiers| + 1) * k == |tiers| * k + k;
  }

  /** rates are the rates of the tiers from start on. */
  ghost predicate AreRates(rates: seq<int>, tiers: seq<Tier>, start: nat, caps: Option<seq<VideoMode>>,
      prefs: seq<string>, want: int)
  {
    && start + |rates| <= |tiers|
    && forall i | 0 <= i < |rates| :: IsTierRate(caps, prefs, tiers[start + i], want, rates[i])
  }

  /** out is the ladder of one codec over the tiers from start on, at their rates. */
  ghost predicate BuiltFor(out: seq<Attempt>, codec: Codec, encs: seq<string>, mjpg: bool, tiers: seq<Tier>, start: nat,
      caps: Option<seq<VideoMode>>, prefs: seq<string>, want: int)
    requires start <= |tiers|
  {
    exists rates: seq<int> :: |rates| == |tiers| - start && AreRates(rates, tiers, start, caps, prefs, want)
                              && IsCodecLadder(out, codec, encs, mjpg, tiers[start..], rates)
  }

  /** The loop over the tiers for one codec. */
  method BuildCodec(codec: Codec, encs: seq<string>, mjpg: bool, tiers: seq<Tier>, start: nat,
                    caps: Option<seq<VideoMode>>, prefs: seq<string>, want: int)
    returns (out: seq<Attempt>)
    requires start <= |tiers| && Sorting.StrictlySorted(tiers, Larger) && EncodersOrdered(encs)
    ensures BuiltFor(out, codec, encs, mjpg, tiers, start, caps, prefs, want)
  {
    out := [];
    ghost var rates: seq<int> := [];
    for i := start to |tiers|
      invariant |rates| == i - start && IsCodecLadder(out, codec, encs, mjpg, tiers[start..i], rates)
      invariant AreRates(rates, tiers, start, caps, prefs, want)
    {
      var t := tiers[i];
      var fps := ChooseTierFPS(caps, prefs, t, want);
      EarlierIsLarger(tiers, start, i);
      LadderGrows(out, codec, encs, mjpg, tiers[start..i], rates, t, fps);
      assert tiers[start..i + 1] == tiers[start..i] + [t];
      out := AppendRung(out, codec, encs, mjpg, t, fps);
      rates := rates + [fps];
    }
    assert tiers[start..|tiers|] == tiers[start..];
  }

  lemma EarlierIsLarger(tiers: seq<Tier>, start: nat, i: nat)
    requires Sorting.StrictlySorted(tiers, Larger) && start <= i < |tiers|
    ensures forall u | u in tiers[start..i] :: u != tiers[i] && Larger(u, tiers[i])
  {
  }

  method AppendRung(out0: seq<Attempt>, codec: Codec, encs: seq<string>, mjpg: bool, t: Tier, fps: int)
    returns (out: seq<Attempt>)
    ensures out == out0 + Rung(codec, encs, mjpg, t, fps)
  {
    out := out0;
    if mjpg {
      out := AppendEach(out, codec, encs, true, t, fps);
    }
    out := AppendEach(out, codec, encs, false, t, fps);
  }

  method AppendEach(out0: seq<Attempt>, codec: Codec, encs: seq<string>, mjpg: bool, t: Tier,
      fps: int) returns (out: seq<Attempt>)
    ensures out == out0 + Each(codec, encs, mjpg, t, fps)
  {
    out := out0;
    for i := 0 to |encs|
      invariant out == out0 + Each(codec, encs, mjpg, t, fps)[..i]
    {
      out := out + [Attempt(codec, encs[i], mjpg, t, fps)];
    }
  }

  // ---------- the whole list ----------

  datatype VideoConf = VideoConf(codec: string, pixFmt: string, width: int, height: int, fps: int,
      preferMjpg: Option<bool>)

  const FALLBACK := [Tier(1920, 1080), Tier(1280, 720), Tier(960, 540), Tier(854, 480), Tier(640, 360), Tier(320, 180)]

  function WantFps(conf: VideoConf): int {
    if conf.fps <= 0 then 15 else if conf.fps > 30 then 30 else conf.fps
  }

  // The size asked for, which need not be one a camera can have.
  datatype Size = Size(w: int, h: int)

  function WantSize(conf: VideoConf): Size {
    Size(if conf.width <= 0 then 640 else conf.width, if conf.height <= 0 then 360 else conf.height)
  }

  function UsesH264(conf: VideoConf): bool {
    ToLower(TrimSpace(conf.codec)) != "vp8"
  }

  function UsesMjpg(conf: VideoConf, elements: set<string>): bool {
    (conf.preferMjpg.None? || conf.preferMjpg.value) && "jpegdec" in elements
  }

  function Prefs(conf: VideoConf, mjpg: bool): seq<string> {
    var pix := Norm(conf.pixFmt);
    (if mjpg then ["MJPG"] else []) + (if pix !in {"", "AUTO", "MJPG"} then [pix] else []) + ["MJPG", "YUYV"]
  }

  /** caps that can be used: present and not empty. */
  function GoodCaps(caps: Option<seq<VideoMode>>): Option<seq<VideoMode>> {
    if caps.Some? && caps.value != [] then caps else None
  }

  ghost predicate IsTiers(conf: VideoConf, caps: Option<seq<VideoMode>>, tiers: seq<Tier>) {
    var formats := Formats(ToLower(TrimSpace(conf.codec)) == "h264");
    if GoodCaps(caps).Some? && exists t :: Usable(caps.value, formats, t) then IsTierList(tiers, caps.value, formats)
    else tiers == FALLBACK
  }

  /** How many encoders there are to try, both codecs together. */
  function EncoderCount(conf: VideoConf, elements: set<string>): nat {
    (if UsesH264(conf) then |EncoderList(H264, elements)| else 0) + |EncoderList(Vp8, elements)|
  }

  /** What the list of attempts is. */
  ghost predicate IsAttempts(conf: VideoConf, caps: Option<seq<VideoMode>>, elements: set<string>,
                             tiers: seq<Tier>, start: nat, rates: seq<int>, out: seq<Attempt>)
  {
    var mjpg := UsesMjpg(conf, elements);
    && IsTiers(conf, caps, tiers) && IsStart(tiers, WantSize(conf).w, WantSize(conf).h, start)
    && |rates| == |tiers| - start
    && AreRates(rates, tiers, start, GoodCaps(caps), Prefs(conf, mjpg), WantFps(conf))
    && Sorting.StrictlySorted(out, Before)
    && (forall a :: a in out <==>
          || (UsesH264(conf) && Belongs(a, H264, EncoderList(H264, elements), mjpg, tiers[start..], rates))
          || Belongs(a, Vp8, EncoderList(Vp8, elements), mjpg, tiers[start..], rates))
    && |out| == |rates| * ((if mjpg then 2 else 1) * EncoderCount(conf, elements))
  }

  lemma FallbackIsSorted()
    ensures Sorting.StrictlySorted(FALLBACK, Larger)
  {
    forall t | t in FALLBACK
      ensures Area(t) == t.w * t.h
    {
      AreaIsExactIff(t);
    }
  }

  method Tiers(conf: VideoConf, caps: Option<seq<VideoMode>>) returns (tiers: seq<Tier>)
    ensures IsTiers(conf, caps, tiers) && tiers != [] && Sorting.StrictlySorted(tiers, Larger)
  {
    FallbackIsSorted();
    tiers := [];
    if GoodCaps(caps).Some? {
      tiers := CapsTiers(caps.value, ToLower(TrimSpace(conf.codec)) == "h264");
    }
    if |tiers| == 0 {
      assert GoodCaps(caps).Some? ==>
          forall t :: Usable(caps.value, Formats(ToLower(TrimSpace(conf.codec)) == "h264"), t) ==> t in tiers;
      tiers := FALLBACK;
    } else {
      assert Usable(caps.value, Formats(ToLower(TrimSpace(conf.codec)) == "h264"), tiers[0]);
    }
  }

  /** out is the list of attempts for this configuration, camera and set of elements. */
  ghost predicate Attempts(conf: VideoConf, caps: Option<seq<VideoMode>>, elements: set<string>, out: seq<Attempt>) {
    exists tiers, start, rates :: IsAttempts(conf, caps, elements, tiers, start, rates, out)
  }

  method BuildVideoAttempts(conf: VideoConf, caps: Option<seq<VideoMode>>, elements: set<string>)
    returns (out: seq<Attempt>)
    ensures Attempts(conf, caps, elements, out)
  {
    var mjpg, want, size := UsesMjpg(conf, elements), WantFps(conf), WantSize(conf);
    var prefs, good := Prefs(conf, mjpg), GoodCaps(caps);
    var tiers := Tiers(conf, caps);
    var start := StartIndex(tiers, size.w, size.h);
    var h264 := [];
    if UsesH264(conf) {
      h264 := BuildCodec(H264, EncoderList(H264, elements), mjpg, tiers, start, good, prefs, want);
    }
    var vp8 := BuildCodec(Vp8, EncoderList(Vp8, elements), mjpg, tiers, start, good, prefs, want);
    out := h264 + vp8;
    Assemble(conf, caps, elements, tiers, start, h264, vp8);
  }

  /** The two codec ladders, one after the other, make the whole list. */
  lemma Assemble(conf: VideoConf, caps: Option<seq<VideoMode>>, elements: set<string>, tiers: seq<Tier>, start: nat,
                 h264: seq<Attempt>, vp8: seq<Attempt>)
    requires IsTiers(conf, caps, tiers) && IsStart(tiers, WantSize(conf).w, WantSize(conf).h, start)
    requires var mjpg, good := UsesMjpg(conf, elements), GoodCaps(caps); var prefs := Prefs(conf, mjpg);
             && (if UsesH264(conf)
                 then BuiltFor(h264, H264, EncoderList(H264, elements), mjpg, tiers, start, good, prefs, WantFps(conf))
                 else h264 == [])
             && BuiltFor(vp8, Vp8, EncoderList(Vp8, elements), mjpg, tiers, start, GoodCaps(caps), prefs, WantFps(conf))
    ensures Attempts(conf, caps, elements, h264 + vp8)
  {
    var mjpg, want := UsesMjpg(conf, elements), WantFps(conf);
    var prefs, good := Prefs(conf, mjpg), GoodCaps(caps);
    var encs, encs2 := EncoderList(H264, elements), EncoderList(Vp8, elements);
    var rates: seq<int> :| |rates| == |tiers| - start && AreRates(rates, tiers, start, good, prefs, want)
                           && IsCodecLadder(vp8, Vp8, encs2, mjpg, tiers[start..], rates);
    if UsesH264(conf) {
      var rates2: seq<int> :| |rates2| == |tiers| - start && AreRates(rates2, tiers, start, good, prefs, want)
                              && IsCodecLadder(h264, H264, encs, mjpg, tiers[start..], rates2);
      SameRates(rates, rates2, tiers, start, good, prefs, want);
    }
    Joined(conf, caps, elements, tiers, start, rates, h264, vp8);
  }

  lemma Joined(conf: VideoConf, caps: Option<seq<VideoMode>>, elements: set<string>, tiers: seq<Tier>, start: nat,
               rates: seq<int>, h264: seq<Attempt>, vp8: seq<Attempt>)
    requires IsTiers(conf, caps, tiers) && IsStart(tiers, WantSize(conf).w, WantSize(conf).h, start)
    requires var mjpg := UsesMjpg(conf, elements);
             && |rates| == |tiers| - start
             && AreRates(rates, tiers, start, GoodCaps(caps), Prefs(conf, mjpg), WantFps(conf))
             && (if UsesH264(conf)
                 then IsCodecLadder(h264, H264, EncoderList(H264, elements), mjpg, tiers[start..], rates)
                 else h264 == [])
             && IsCodecLadder(vp8, Vp8, EncoderList(Vp8, elements), mjpg, tiers[start..], rates)
    ensures IsAttempts(conf, caps, elements, tiers, start, rates, h264 + vp8)
  {
    Sorting.SortedConcat(h264, vp8, Before);
    LengthAdds(|rates|, if UsesMjpg(conf, elements) then 2 else 1,
               if UsesH264(conf) then |EncoderList(H264, elements)| else 0, |EncoderList(Vp8, elements)|);
  }

  lemma SameRates(a: seq<int>, b: seq<int>, tiers: seq<Tier>, start: nat, caps: Option<seq<VideoMode>>,
                  prefs: seq<string>, want: int)
    requires |a| == |b| && AreRates(a, tiers, start, caps, prefs, want) && AreRates(b, tiers, start, caps, prefs, want)
    ensures a == b
  {
    forall i | 0 <= i < |a|
      ensures a[i] == b[i]
    {
      TierRateIsUnique(caps, prefs, tiers[start + i], want, a[i], b[i]);
    }
  }

  lemma LengthAdds(n: nat, k: nat, a: nat, b: nat)
    ensures n * (k * a) + n * (k * b) == n * (k * (a + b))
  {
    assert k * (a + b) == k * a + k * b;
  }

  /** What the order buys: no attempt twice, every H.264 attempt before every VP8 one, areas never
      growing within a codec nor beyond the start tier's, MJPG before raw at the same tier, and the
      hardware encoder before the software one. */
  lemma LadderOrder(conf: VideoConf, caps: Option<seq<VideoMode>>, elements: set<string>,
                    tiers: seq<Tier>, start: nat, rates: seq<int>, out: seq<Attempt>, i: nat, j: nat)
    requires IsAttempts(conf, caps, elements, tiers, start, rates, out) && i < j < |out|
    ensures out[i] != out[j] && (out[i].codec == Vp8 ==> out[j].codec == Vp8)
    ensures out[i].codec == out[j].codec ==> Area(out[i].tier) >= Area(out[j].tier)
    ensures out[i].codec == out[j].codec && out[i].tier == out[j].tier && out[j].mjpg ==> out[i].mjpg
    ensures out[i].codec == out[j].codec == H264 && out[i].tier == out[j].tier && out[i].mjpg == out[j].mjpg ==>
              out[i].enc == "v4l2h264enc" && out[j].enc == "x264enc"
    ensures Area(out[i].tier) <= Area(tiers[start])
  {
    assert out[i] in out && out[j] in out;
    FallbackIsSorted();
    var k :| 0 <= k < |tiers[start..]| && out[i].tier == tiers[start..][k];
    assert k > 0 ==> Larger(tiers[start], tiers[start + k]);
  }
}
