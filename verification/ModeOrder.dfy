/** What the order of the camera modes, open since Go's map iteration, can do to the attempt list of
    pkg/stream/janusvr_sink.go. */
module ModeOrder {
  import opened Common
  import opened Ladder
  import opened Strings
  import opened VideoModes
  import Sorting

  /** Tiers and start index are the same for every order of the modes. */
  lemma TiersAndStartAreCanonical(conf: VideoConf, a: seq<VideoMode>, b: seq<VideoMode>,
                                  tiersA: seq<Tier>, startA: nat, tiersB: seq<Tier>, startB: nat)
    requires a != [] && multiset(a) == multiset(b)
    requires IsTiers(conf, Some(a), tiersA) && IsStart(tiersA, WantSize(conf).w, WantSize(conf).h, startA)
    requires IsTiers(conf, Some(b), tiersB) && IsStart(tiersB, WantSize(conf).w, WantSize(conf).h, startB)
    ensures tiersA == tiersB && startA == startB
  {
    Sorting.MultisetElements(a, b);
    var formats := Formats(ToLower(TrimSpace(conf.codec)) == "h264");
    assert forall t :: Usable(a, formats, t) <==> Usable(b, formats, t);
    if exists t :: Usable(a, formats, t) {
      TiersAreCanonical(tiersA, tiersB, a, b, formats);
    }
    assert tiersA == tiersB;
    StartIsUnique(tiersA, WantSize(conf).w, WantSize(conf).h, startA, startB);
  }

  /** No rate of a tier from the start on hangs on the order of the modes. */
  ghost predicate RatesOrderFree(conf: VideoConf, modes: seq<VideoMode>, elements: set<string>, tiers: seq<Tier>,
      start: nat)
  {
    forall i: nat | start <= i < |tiers| ::
      HasPreferred(modes, Prefs(conf, UsesMjpg(conf, elements)), tiers[i]) || RatesAgree(modes, tiers[i], WantFps(conf))
  }

  lemma RatesAreCanonical(conf: VideoConf, a: seq<VideoMode>, b: seq<VideoMode>, elements: set<string>,
                          tiers: seq<Tier>, start: nat, ratesA: seq<int>, ratesB: seq<int>)
    requires multiset(a) == multiset(b) && UniqueModes(a) && RatesOrderFree(conf, a, elements, tiers, start)
    requires |ratesA| == |ratesB|
    requires AreRates(ratesA, tiers, start, Some(a), Prefs(conf, UsesMjpg(conf, elements)), WantFps(conf))
    requires AreRates(ratesB, tiers, start, Some(b), Prefs(conf, UsesMjpg(conf, elements)), WantFps(conf))
    ensures ratesA == ratesB
  {
    forall i | 0 <= i < |ratesA|
      ensures ratesA[i] == ratesB[i]
    {
      SameRate(a, b, Prefs(conf, UsesMjpg(conf, elements)), tiers[start + i], WantFps(conf), ratesA[i], ratesB[i]);
    }
  }

  /** Where no rate hangs on the order of the modes, the whole list of attempts does not either. */
  lemma AttemptsAreCanonical(conf: VideoConf, a: seq<VideoMode>, b: seq<VideoMode>, elements: set<string>,
                             outA: seq<Attempt>, outB: seq<Attempt>)
    requires a != [] && multiset(a) == multiset(b) && UniqueModes(a)
    requires Attempts(conf, Some(a), elements, outA) && Attempts(conf, Some(b), elements, outB)
    requires forall tiers, start: nat | IsTiers(conf, Some(a), tiers)
                                        && IsStart(tiers, WantSize(conf).w, WantSize(conf).h, start) ::
               RatesOrderFree(conf, a, elements, tiers, start)
    ensures outA == outB
  {
    var tiersA, startA, ratesA :| IsAttempts(conf, Some(a), elements, tiersA, startA, ratesA, outA);
    var tiersB, startB, ratesB :| IsAttempts(conf, Some(b), elements, tiersB, startB, ratesB, outB);
    assert b != [] by {
      Sorting.MultisetElements(a, b);
    }
    TiersAndStartAreCanonical(conf, a, b, tiersA, startA, tiersB, startB);
    RatesAreCanonical(conf, a, b, elements, tiersA, startA, ratesA, ratesB);
    SameAttempts(conf, Some(a), Some(b), elements, tiersA, startA, ratesA, outA, outB);
  }

  /** Tiers, start and rates determine the list. */
  lemma SameAttempts(conf: VideoConf, capsA: Option<seq<VideoMode>>, capsB: Option<seq<VideoMode>>,
                     elements: set<string>, tiers: seq<Tier>, start: nat, rates: seq<int>,
                     outA: seq<Attempt>, outB: seq<Attempt>)
    requires IsAttempts(conf, capsA, elements, tiers, start, rates, outA)
    requires IsAttempts(conf, capsB, elements, tiers, start, rates, outB)
    ensures outA == outB
  {
    BeforeIsAsymmetric();
    assert Sorting.SameElements(outA, outB);
    Sorting.StrictlySortedUnique(outA, outB, Before);
  }

  lemma BeforeIsAsymmetric()
    ensures forall x, y :: Before(x, y) ==> !Before(y, x)
  {
    LargerIsWeakOrder();
  }

  /** The order the probe's map iteration leaves open is such an order: any two flattenings of the
      same groups are permutations of each other with unique modes. */
  lemma FlatteningsArePermutations(groups: Groups, a: seq<VideoMode>, b: seq<VideoMode>)
    requires Listing(groups, a) && Listing(groups, b) && forall k | k in groups :: Norm(k.f) == k.f
    ensures multiset(a) == multiset(b) && UniqueModes(a)
  {
    ListingsAgree(groups, a, b);
    SameSize(a, b);
    forall m, n | m in a && n in a && Norm(m.pixFmt) == Norm(n.pixFmt) && m.w == n.w && m.h == n.h
      ensures m == n
    {
      assert KeyOf(m) in groups && KeyOf(n) in groups && KeyOf(m) == KeyOf(n);
    }
  }

  // ---------- and only then ----------

  lemma {:induction false} ClosestExists(list: seq<int>, target: int) returns (f: int)
    requires list != []
    ensures IsClosest(list, target, f)
  {
    var n := |list| - 1;
    assert list == list[..n] + [list[n]];
    if n == 0 {
      f := list[0];
    } else {
      f := ClosestExists(list[..n], target);
      var d, e := Dist(list[n], target), Dist(f, target);
      if d < e || (d == e && list[n] > f) {
        f := list[n];
      }
    }
  }

  lemma RateExists(caps: Option<seq<VideoMode>>, prefs: seq<string>, t: Tier, want: int) returns (f: int)
    ensures IsTierRate(caps, prefs, t, want, f)
  {
    f := want;
    if caps.Some? && RateSource(caps.value, prefs, t).Some? && RateSource(caps.value, prefs, t).value.fps != [] {
      f := ClosestExists(RateSource(caps.value, prefs, t).value.fps, want);
    }
  }

  lemma {:induction false} RatesExist(tiers: seq<Tier>, start: nat, n: nat, caps: Option<seq<VideoMode>>,
                                      prefs: seq<string>, want: int) returns (rates: seq<int>)
    requires start + n <= |tiers|
    ensures |rates| == n && AreRates(rates, tiers, start, caps, prefs, want)
  {
    rates := [];
    if n > 0 {
      rates := RatesExist(tiers, start, n - 1, caps, prefs, want);
      var f := RateExists(caps, prefs, tiers[start + n - 1], want);
      rates := rates + [f];
    }
  }

  lemma {:induction false} LadderExists(codec: Codec, encs: seq<string>, mjpg: bool, tiers: seq<Tier>, rates: seq<int>)
    returns (s: seq<Attempt>)
    requires |rates| == |tiers| && EncodersOrdered(encs) && Sorting.StrictlySorted(tiers, Larger)
    ensures IsCodecLadder(s, codec, encs, mjpg, tiers, rates)
  {
    s := [];
    if tiers != [] {
      var n := |tiers| - 1;
      s := LadderExists(codec, encs, mjpg, tiers[..n], rates[..n]);
      EarlierIsLarger(tiers, 0, n);
      assert tiers[0..n] == tiers[..n] && tiers[..n] + [tiers[n]] == tiers && rates[..n] + [rates[n]] == rates;
      LadderGrows(s, codec, encs, mjpg, tiers[..n], rates[..n], tiers[n], rates[n]);
      s := s + Rung(codec, encs, mjpg, tiers[n], rates[n]);
    }
  }

  /** There is a list of attempts over any tiers and start that fit. */
  lemma AttemptsExist(conf: VideoConf, caps: Option<seq<VideoMode>>, elements: set<string>,
                      tiers: seq<Tier>, start: nat)
    returns (rates: seq<int>, out: seq<Attempt>)
    requires IsTiers(conf, caps, tiers) && IsStart(tiers, WantSize(conf).w, WantSize(conf).h, start)
    ensures IsAttempts(conf, caps, elements, tiers, start, rates, out)
  {
    var mjpg := UsesMjpg(conf, elements);
    rates := RatesExist(tiers, start, |tiers| - start, GoodCaps(caps), Prefs(conf, mjpg), WantFps(conf));
    FallbackIsSorted();
    var h264: seq<Attempt> := [];
    if UsesH264(conf) {
      h264 := LadderExists(H264, EncoderList(H264, elements), mjpg, tiers[start..], rates);
    }
    var vp8 := LadderExists(Vp8, EncoderList(Vp8, elements), mjpg, tiers[start..], rates);
    Joined(conf, caps, elements, tiers, start, rates, h264, vp8);
    out := h264 + vp8;
  }

  lemma SameTiers(conf: VideoConf, a: seq<VideoMode>, b: seq<VideoMode>, tiers: seq<Tier>)
    requires a != [] && multiset(a) == multiset(b) && IsTiers(conf, Some(a), tiers)
    ensures b != [] && IsTiers(conf, Some(b), tiers)
  {
    Sorting.MultisetElements(a, b);
    assert a[0] in b;
    var formats := Formats(ToLower(TrimSpace(conf.codec)) == "h264");
    assert forall t :: Usable(a, formats, t) <==> Usable(b, formats, t);
  }

  /** Two lists with different rates at one tier differ, if there is an encoder at all. */
  lemma RatesShow(conf: VideoConf, capsA: Option<seq<VideoMode>>, capsB: Option<seq<VideoMode>>, elements: set<string>,
                  tiers: seq<Tier>, start: nat, ratesA: seq<int>, ratesB: seq<int>,
                  outA: seq<Attempt>, outB: seq<Attempt>, i: nat)
    requires IsAttempts(conf, capsA, elements, tiers, start, ratesA, outA)
    requires IsAttempts(conf, capsB, elements, tiers, start, ratesB, outB)
    requires i < |ratesA| && ratesA[i] != ratesB[i] && EncoderCount(conf, elements) > 0
    ensures outA != outB
  {
    var mjpg, t := UsesMjpg(conf, elements), tiers[start..][i];
    var codec := if EncoderList(Vp8, elements) != [] then Vp8 else H264;
    var encs := EncoderList(codec, elements);
    var x := Attempt(codec, encs[0], false, t, ratesA[i]);
    assert Belongs(x, codec, encs, mjpg, tiers[start..], ratesA);
    assert x in outA;
    forall k: nat | k < |tiers[start..]| && t == tiers[start..][k]
      ensures k == i
    {
      TiersAreDistinct(conf, capsA, tiers, start + i, start + k);
    }
    assert !Belongs(x, codec, encs, mjpg, tiers[start..], ratesB);
    assert x !in outB;
  }

  lemma TiersAreDistinct(conf: VideoConf, caps: Option<seq<VideoMode>>, tiers: seq<Tier>, i: nat, k: nat)
    requires IsTiers(conf, caps, tiers) && i < |tiers| && k < |tiers| && tiers[i] == tiers[k]
    ensures i == k
  {
    FallbackIsSorted();
  }

  /** Exactly when the list of attempts is the same for every order of the modes: there is no
      encoder, or no rate of a tier from the start on hangs on that order. */
  lemma AttemptsAreCanonicalIff(conf: VideoConf, modes: seq<VideoMode>, elements: set<string>, tiers: seq<Tier>,
                                start: nat)
    requires modes != [] && UniqueModes(modes) && Sorting.NoDuplicates(modes)
    requires IsTiers(conf, Some(modes), tiers) && IsStart(tiers, WantSize(conf).w, WantSize(conf).h, start)
    ensures OrderFree(conf, modes, elements) <==>
              EncoderCount(conf, elements) == 0 || RatesOrderFree(conf, modes, elements, tiers, start)
  {
    if EncoderCount(conf, elements) == 0 || RatesOrderFree(conf, modes, elements, tiers, start) {
      forall other, outA, outB | multiset(other) == multiset(modes) && Attempts(conf, Some(modes), elements, outA)
                                 && Attempts(conf, Some(other), elements, outB)
        ensures outA == outB
      {
        OrderLeavesNoTrace(conf, modes, other, elements, tiers, start, outA, outB);
      }
    } else {
      var i: nat :| start <= i < |tiers| && !HasPreferred(modes, Prefs(conf, UsesMjpg(conf, elements)), tiers[i])
                    && !RatesAgree(modes, tiers[i], WantFps(conf));
      OrderLeavesTrace(conf, modes, elements, tiers, start, i);
    }
  }

  /** Any two orders of the modes give the same list. */
  ghost predicate OrderFree(conf: VideoConf, modes: seq<VideoMode>, elements: set<string>) {
    forall other, outA, outB | multiset(other) == multiset(modes) && Attempts(conf, Some(modes), elements, outA)
                               && Attempts(conf, Some(other), elements, outB) :: outA == outB
  }

  lemma OrderLeavesNoTrace(conf: VideoConf, modes: seq<VideoMode>, other: seq<VideoMode>, elements: set<string>,
                           tiers: seq<Tier>, start: nat, outA: seq<Attempt>, outB: seq<Attempt>)
    requires modes != [] && UniqueModes(modes) && multiset(other) == multiset(modes)
    requires IsTiers(conf, Some(modes), tiers) && IsStart(tiers, WantSize(conf).w, WantSize(conf).h, start)
    requires EncoderCount(conf, elements) == 0 || RatesOrderFree(conf, modes, elements, tiers, start)
    requires Attempts(conf, Some(modes), elements, outA) && Attempts(conf, Some(other), elements, outB)
    ensures outA == outB
  {
    if EncoderCount(conf, elements) == 0 {
      NoEncoderNoAttempt(conf, Some(modes), elements, outA);
      NoEncoderNoAttempt(conf, Some(other), elements, outB);
    } else {
      forall t, s: nat | IsTiers(conf, Some(modes), t) && IsStart(t, WantSize(conf).w, WantSize(conf).h, s)
        ensures RatesOrderFree(conf, modes, elements, t, s)
      {
        TiersAndStartAreCanonical(conf, modes, modes, tiers, start, t, s);
      }
      AttemptsAreCanonical(conf, modes, other, elements, outA, outB);
    }
  }

  lemma NoEncoderNoAttempt(conf: VideoConf, caps: Option<seq<VideoMode>>, elements: set<string>, out: seq<Attempt>)
    requires Attempts(conf, caps, elements, out) && EncoderCount(conf, elements) == 0
    ensures out == []
  {
    var tiers, start, rates :| IsAttempts(conf, caps, elements, tiers, start, rates, out);
  }

  lemma OrderLeavesTrace(conf: VideoConf, modes: seq<VideoMode>, elements: set<string>, tiers: seq<Tier>,
                         start: nat, i: nat)
    requires modes != [] && UniqueModes(modes) && Sorting.NoDuplicates(modes) && EncoderCount(conf, elements) > 0
    requires IsTiers(conf, Some(modes), tiers) && IsStart(tiers, WantSize(conf).w, WantSize(conf).h, start)
    requires start <= i < |tiers| && !HasPreferred(modes, Prefs(conf, UsesMjpg(conf, elements)), tiers[i])
    requires !RatesAgree(modes, tiers[i], WantFps(conf))
    ensures !OrderFree(conf, modes, elements)
  {
    var prefs, want := Prefs(conf, UsesMjpg(conf, elements)), WantFps(conf);
    var other, f, g := RatesDiffer(modes, prefs, tiers[i], want);
    SameTiers(conf, modes, other, tiers);
    var ratesA, outA := ListWithRate(conf, modes, elements, tiers, start, i, f);
    var ratesB, outB := ListWithRate(conf, other, elements, tiers, start, i, g);
    RatesShow(conf, Some(modes), Some(other), elements, tiers, start, ratesA, ratesB, outA, outB, i - start);
    assert Attempts(conf, Some(modes), elements, outA) && Attempts(conf, Some(other), elements, outB);
  }

  lemma RatesDiffer(modes: seq<VideoMode>, prefs: seq<string>, t: Tier, want: int)
    returns (other: seq<VideoMode>, f: int, g: int)
    requires UniqueModes(modes) && Sorting.NoDuplicates(modes)
    requires !HasPreferred(modes, prefs, t) && !RatesAgree(modes, t, want)
    ensures multiset(other) == multiset(modes) && f != g
    ensures IsTierRate(Some(modes), prefs, t, want, f) && IsTierRate(Some(other), prefs, t, want, g)
  {
    TierRateIsCanonicalIff(modes, prefs, t, want);
    other, f, g :| multiset(other) == multiset(modes) && IsTierRate(Some(modes), prefs, t, want, f)
      && IsTierRate(Some(other), prefs, t, want, g) && f != g;
  }

  /** A list of attempts in which tier i has the given rate. */
  lemma ListWithRate(conf: VideoConf, modes: seq<VideoMode>, elements: set<string>, tiers: seq<Tier>, start: nat,
                     i: nat, f: int) returns (rates: seq<int>, out: seq<Attempt>)
    requires modes != [] && IsTiers(conf, Some(modes), tiers) && start <= i < |tiers|
    requires IsStart(tiers, WantSize(conf).w, WantSize(conf).h, start)
    requires IsTierRate(Some(modes), Prefs(conf, UsesMjpg(conf, elements)), tiers[i], WantFps(conf), f)
    ensures IsAttempts(conf, Some(modes), elements, tiers, start, rates, out) && rates[i - start] == f
  {
    rates, out := AttemptsExist(conf, Some(modes), elements, tiers, start);
    TierRateIsUnique(Some(modes), Prefs(conf, UsesMjpg(conf, elements)), tiers[i], WantFps(conf), f, rates[i - start]);
  }

  /** A camera where the order shows: 1080p in H.264 at 30 frames and in NV12 at 10, with MJPG and
      YUYV preferred. The tier is usable, its modes are unique, and which of the two rates it gets
      is up to which mode comes first. */
  lemma OrderCanMatter()
    ensures var h, n, t := VideoMode("H264", 1920, 1080, [30]), VideoMode("NV12", 1920, 1080, [10]), Tier(1920, 1080);
            && UniqueModes([h, n]) && Usable([h, n], Formats(true), t)
            && !HasPreferred([h, n], ["MJPG", "YUYV"], t) && !RatesAgree([h, n], t, 30)
            && IsTierRate(Some([h, n]), ["MJPG", "YUYV"], t, 30, 30)
            && IsTierRate(Some([n, h]), ["MJPG", "YUYV"], t, 30, 10)
  {
    var h, n, t := VideoMode("H264", 1920, 1080, [30]), VideoMode("NV12", 1920, 1080, [10]), Tier(1920, 1080);
    TwoModes(h, n, t);
    assert IsClosest([30], 30, 30) && IsClosest([10], 30, 10);
    FirstDecides(h, n, ["MJPG", "YUYV"], t, 30, 30);
    FirstDecides(n, h, ["MJPG", "YUYV"], t, 30, 10);
  }

  lemma TwoModes(h: VideoMode, n: VideoMode, t: Tier)
    requires h == VideoMode("H264", 1920, 1080, [30]) && n == VideoMode("NV12", 1920, 1080, [10])
    requires t == Tier(1920, 1080)
    ensures UniqueModes([h, n]) && Usable([h, n], Formats(true), t)
    ensures !HasPreferred([h, n], ["MJPG", "YUYV"], t) && !HasPreferred([n, h], ["MJPG", "YUYV"], t)
    ensures !RatesAgree([h, n], t, 30)
  {
    CameraNames();
    assert Gives(h, Formats(true), t);
    assert h in [h, n] && n in [h, n] && IsClosest([30], 30, 30) && IsClosest([10], 30, 10);
  }

  lemma FirstDecides(m: VideoMode, n: VideoMode, prefs: seq<string>, t: Tier, want: int, f: int)
    requires !HasPreferred([m, n], prefs, t) && Fits(m, t, None) && RateFor(m, want, f)
    ensures IsTierRate(Some([m, n]), prefs, t, want, f)
  {
    LastResort([m, n], prefs, t);
  }

  lemma CameraNames()
    ensures Norm("H264") == "H264" && Norm("NV12") == "NV12"
    ensures "H264" != "NV12" && "H264" !in ["MJPG", "YUYV"] && "NV12" !in ["MJPG", "YUYV"]
  {
    TrimmedIsFixed("H264");
    TrimmedIsFixed("NV12");
    assert ToUpper("H264") == "H264" && ToUpper("NV12") == "NV12";
    assert "H264"[0] != "NV12"[0] && "H264"[0] != "MJPG"[0] && "H264"[0] != "YUYV"[0];
    assert "NV12"[0] != "MJPG"[0] && "NV12"[0] != "YUYV"[0];
  }
}
