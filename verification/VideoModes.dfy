/** Camera modes: reading them from the probe (pkg/device/video_caps.go) and picking one
    (pkg/device/video_caps.go, pkg/stream/janusvr_sink.go). */
module VideoModes {
  import opened Common
  import opened Strings
  import Sorting

  // A frame width or height as the camera driver reports it: V4L2 keeps both in 32 unsigned bits.
  type Dim = x: int | 0 <= x < TWO_32

  const TWO_32 := 0x1_0000_0000

  datatype VideoMode = VideoMode(pixFmt: string, w: Dim, h: Dim, fps: seq<int>)

  function Norm(pixFmt: string): string {
    ToUpper(TrimSpace(pixFmt))
  }

  // ---------- reading the probe ----------

  /** A probe line after classification; an fps line may fail to match. */
  datatype Line = FmtLine(name: string) | SizeLine(w: Dim, h: Dim) | FpsLine(fps: Option<int>) | OtherLine

  datatype Key = Key(f: string, w: Dim, h: Dim)

  type Groups = map<Key, set<int>>

  /** The format, width and height in force before line i. */
  function InForce(lines: seq<Line>, i: nat): Key
    requires i <= |lines|
  {
    if i == 0 then Key("", 0, 0)
    else
      var k := InForce(lines, i - 1);
      match lines[i - 1]
      case FmtLine(name) => Key(ToUpper(name), 0, 0)
      case SizeLine(w, h) => k.(w := w, h := h)
      case _ => k
  }

  /** Line i reports a rate for k. */
  predicate Reports(lines: seq<Line>, i: nat, k: Key)
    requires i <= |lines|
  {
    i < |lines| && lines[i].FpsLine? && lines[i].fps.Some? && InForce(lines, i) == k && k.f != "" && k.w > 0 && k.h > 0
  }

  function Add(m: Groups, k: Key, fps: int): Groups {
    var seen := if k in m then m[k] else {};
    m[k := if fps > 0 then seen + {fps} else seen]
  }

  /** The grouping loop over the classified lines. */
  method Group(lines: seq<Line>) returns (m: Groups)
    ensures forall k :: k in m <==> exists i: nat :: i <= |lines| && Reports(lines, i, k)
    ensures forall k, x | k in m ::
              x in m[k] <==> x > 0 && exists i: nat :: i <= |lines| && Reports(lines, i, k) && lines[i].fps.value == x
  {
    m := map[];
    var curFmt: string, curW: Dim, curH: Dim := "", 0, 0;
    for i := 0 to |lines|
      invariant Key(curFmt, curW, curH) == InForce(lines, i)
      invariant forall k :: k in m <==> exists j: nat :: j < i && Reports(lines, j, k)
      invariant forall k, x | k in m ::
                  x in m[k] <==> x > 0 && exists j: nat :: j < i && Reports(lines, j, k) && lines[j].fps.value == x
    {
      match lines[i]
      case FmtLine(name) => curFmt, curW, curH := ToUpper(name), 0, 0;
      case SizeLine(w, h) => curW, curH := w, h;
      case FpsLine(fps) =>
        if curFmt != "" && curW > 0 && curH > 0 && fps.Some? {
          var k := Key(curFmt, curW, curH);
          assert Reports(lines, i, k);
          m := Add(m, k, fps.value);
        }
      case OtherLine =>
    }
  }

  /** What a rate line belongs to: the latest format line's format, in capitals, and the latest size
      line after it. */
  lemma {:induction false} RateBelongsTo(lines: seq<Line>, a: nat, b: nat, i: nat)
    requires a < b < i <= |lines| && lines[a].FmtLine? && lines[b].SizeLine?
    requires forall j: nat | a < j < i :: !lines[j].FmtLine?
    requires forall j: nat | b < j < i :: !lines[j].SizeLine?
    ensures InForce(lines, i) == Key(ToUpper(lines[a].name), lines[b].w, lines[b].h)
  {
    if i == b + 1 {
      FormatInForce(lines, a, b);
    } else {
      RateBelongsTo(lines, a, b, i - 1);
    }
  }

  lemma {:induction false} FormatInForce(lines: seq<Line>, a: nat, i: nat)
    requires a < i <= |lines| && lines[a].FmtLine? && forall j: nat | a < j < i :: !lines[j].FmtLine?
    ensures InForce(lines, i).f == ToUpper(lines[a].name)
  {
    if i > a + 1 {
      FormatInForce(lines, a, i - 1);
    }
  }

  /** A format line forgets the size: until the next size line no rate is reported. */
  lemma {:induction false} NoSizeNoReport(lines: seq<Line>, a: nat, i: nat, k: Key)
    requires a < i <= |lines| && lines[a].FmtLine? && forall j: nat | a < j < i :: !lines[j].SizeLine?
    ensures InForce(lines, i).w == InForce(lines, i).h == 0 && !Reports(lines, i, k)
  {
    if i > a + 1 {
      NoSizeNoReport(lines, a, i - 1, k);
    }
  }

  /** So a format line, a size line and a positive rate line in a row give a group of that very size
      with that rate in it. */
  lemma ProbeGivesMode(lines: seq<Line>, m: Groups, a: nat, b: nat, i: nat)
    requires forall k :: k in m <==> exists j: nat :: j <= |lines| && Reports(lines, j, k)
    requires forall k, x | k in m ::
               x in m[k] <==> x > 0 && exists j: nat :: j <= |lines| && Reports(lines, j, k) && lines[j].fps.value == x
    requires a < b < i < |lines| && lines[a].FmtLine? && lines[a].name != "" && lines[b].SizeLine?
    requires forall j: nat | a < j < i :: !lines[j].FmtLine?
    requires forall j: nat | b < j < i :: !lines[j].SizeLine?
    requires lines[b].w > 0 && lines[b].h > 0 && lines[i].FpsLine? && lines[i].fps.Some? && lines[i].fps.value > 0
    ensures var k := Key(ToUpper(lines[a].name), lines[b].w, lines[b].h); k in m && lines[i].fps.value in m[k]
  {
    RateBelongsTo(lines, a, b, i);
    assert ToUpper(lines[a].name) != "";
    assert Reports(lines, i, Key(ToUpper(lines[a].name), lines[b].w, lines[b].h));
  }

  predicate Less(a: int, b: int) {
    a < b
  }

  ghost predicate Ascending(s: seq<int>) {
    Sorting.StrictlySorted(s, Less)
  }

  ghost predicate Lists(s: seq<int>, xs: set<int>) {
    Ascending(s) && forall x :: x in s <==> x in xs
  }

  method Pick<T>(s: set<T>) returns (x: T)
    requires s != {}
    ensures x in s
  {
    x :| x in s;
  }

  /** The rates in an order chosen by the map iteration. */
  method SomeOrder(xs: set<int>) returns (a: array<int>)
    ensures fresh(a) && Sorting.NoDuplicates(a[..]) && forall x :: x in a[..] <==> x in xs
  {
    var s: seq<int> := [];
    var rest := xs;
    while rest != {}
      invariant Sorting.NoDuplicates(s) && rest <= xs && forall x :: x in s <==> x in xs && x !in rest
      decreases rest
    {
      var x := Pick(rest);
      s, rest := s + [x], rest - {x};
    }
    a := new int[|s|](i requires 0 <= i < |s| => s[i]);
    assert a[..] == s;
  }

  method Swap(a: array<int>, i: nat, j: nat)
    requires i < j < a.Length
    modifies a
    ensures multiset(a[..]) == old(multiset(a[..]))
    ensures a[..] == old(a[..])[i := old(a[j])][j := old(a[i])]
  {
    a[i], a[j] := a[j], a[i];
  }

  /** The inner loop of the exchange sort: a[i] becomes the least of a[i..]. */
  method ExchangeFrom(a: array<int>, i: nat)
    requires i < a.Length && (i > 0 ==> forall q | i <= q < a.Length :: a[i - 1] <= a[q])
    modifies a
    ensures multiset(a[..]) == old(multiset(a[..])) && a[..i] == old(a[..i])
    ensures i > 0 ==> a[i - 1] <= a[i]
    ensures forall q | i < q < a.Length :: a[i] <= a[q]
  {
    for j := i + 1 to a.Length
      invariant multiset(a[..]) == old(multiset(a[..])) && a[..i] == old(a[..i])
      invariant forall q | i < q < j :: a[i] <= a[q]
      invariant i > 0 ==> forall q | i <= q < a.Length :: a[i - 1] <= a[q]
    {
      if a[j] < a[i] {
        Swap(a, i, j);
      }
    }
  }

  /** The in-place exchange sort of the rates. */
  method SortRates(a: array<int>)
    modifies a
    ensures multiset(a[..]) == old(multiset(a[..]))
    ensures forall p, q | 0 <= p < q < a.Length :: a[p] <= a[q]
  {
    for i := 0 to a.Length
      invariant multiset(a[..]) == old(multiset(a[..]))
      invariant forall p, q | 0 <= p < q < i :: a[..i][p] <= a[..i][q]
      invariant i > 0 ==> forall q | i <= q < a.Length :: a[i - 1] <= a[q]
    {
      ExchangeFrom(a, i);
    }
    assert a[..a.Length] == a[..];
  }

  method SortedRates(xs: set<int>) returns (s: seq<int>)
    ensures Lists(s, xs)
  {
    var a := SomeOrder(xs);
    ghost var was := a[..];
    SortRates(a);
    s := a[..];
    Sorting.PermutationKeepsDistinct(was, s);
    Sorting.MultisetElements(was, s);
  }

  function KeyOf(m: VideoMode): Key {
    Key(m.pixFmt, m.w, m.h)
  }

  /** What flattening promises: one mode per group, its rates ascending; the order is open. */
  ghost predicate Listing(groups: Groups, out: seq<VideoMode>) {
    && (forall i, j | 0 <= i < j < |out| :: KeyOf(out[i]) != KeyOf(out[j]))
    && (forall m | m in out :: KeyOf(m) in groups && Lists(m.fps, groups[KeyOf(m)]))
    && (forall k | k in groups :: exists m :: m in out && KeyOf(m) == k)
  }

  /** Flattening in the order of the map iteration, which Go leaves open. */
  method Flatten(groups: Groups) returns (out: seq<VideoMode>)
    ensures Listing(groups, out)
  {
    out := [];
    var rest := groups.Keys;
    while rest != {}
      invariant rest <= groups.Keys
      invariant forall i, j | 0 <= i < j < |out| :: KeyOf(out[i]) != KeyOf(out[j])
      invariant forall m | m in out :: KeyOf(m) in groups.Keys - rest && Lists(m.fps, groups[KeyOf(m)])
      invariant forall k | k in groups && k !in rest :: exists m :: m in out && KeyOf(m) == k
      decreases rest
    {
      var k :| k in rest;
      var fps := SortedRates(groups[k]);
      var before, m := out, VideoMode(k.f, k.w, k.h, fps);
      out, rest := out + [m], rest - {k};
      forall k' | k' in groups && k' !in rest
        ensures exists m' :: m' in out && KeyOf(m') == k'
      {
        if k' == k {
          assert m in out && KeyOf(m) == k;
        } else {
          var m' :| m' in before && KeyOf(m') == k';
          assert m' in out;
        }
      }
    }
  }

  /** Whatever order the iteration takes, the same modes come out. */
  lemma ListingsAgree(groups: Groups, a: seq<VideoMode>, b: seq<VideoMode>)
    requires Listing(groups, a) && Listing(groups, b)
    ensures Sorting.SameElements(a, b) && |a| == |b|
  {
    ListingIncluded(groups, a, b);
    ListingIncluded(groups, b, a);
    assert Sorting.NoDuplicates(a) && Sorting.NoDuplicates(b);
    SameSize(a, b);
  }

  lemma AscendingIsUnique(a: seq<int>, b: seq<int>, xs: set<int>)
    requires Lists(a, xs) && Lists(b, xs)
    ensures a == b
  {
    assert Sorting.SameElements(a, b);
    Sorting.StrictlySortedUnique(a, b, Less);
  }

  lemma ListingIncluded(groups: Groups, a: seq<VideoMode>, b: seq<VideoMode>)
    requires Listing(groups, a) && Listing(groups, b)
    ensures forall m | m in a :: m in b
  {
    forall m | m in a
      ensures m in b
    {
      var k := KeyOf(m);
      var m' :| m' in b && KeyOf(m') == k;
      AscendingIsUnique(m.fps, m'.fps, groups[k]);
    }
  }

  lemma SameSize<T>(a: seq<T>, b: seq<T>)
    requires Sorting.NoDuplicates(a) && Sorting.NoDuplicates(b) && Sorting.SameElements(a, b)
    ensures multiset(a) == multiset(b) && |a| == |b|
  {
    Sorting.DuplicateFreeCount(a);
    Sorting.DuplicateFreeCount(b);
    forall x
      ensures multiset(a)[x] == multiset(b)[x]
    {
      assert x in a <==> x in multiset(a);
      assert x in b <==> x in multiset(b);
    }
    assert multiset(a) == multiset(b);
    assert |multiset(a)| == |a| && |multiset(b)| == |b|;
  }

  // ---------- nearest frame rate ----------

  function Dist(x: int, y: int): int {
    if x < y then y - x else x - y
  }

  /** f is the listed rate closest to target, the higher one of two equally close. */
  ghost predicate IsClosest(list: seq<int>, target: int, f: int) {
    && f in list
    && forall g | g in list ::
         Dist(f, target) < Dist(g, target) || (Dist(f, target) == Dist(g, target) && f >= g)
  }

  method ClosestFPS(list: seq<int>, target: int) returns (best: int)
    ensures list == [] ==> best == target
    ensures list != [] ==> IsClosest(list, target, best)
  {
    if |list| == 0 {
      return target;
    }
    best := list[0];
    var bestD := Dist(best, target);
    for i := 1 to |list|
      invariant bestD == Dist(best, target) && IsClosest(list[..i], target, best)
    {
      var f := list[i];
      var d := Dist(f, target);
      assert list[..i + 1] == list[..i] + [f];
      if d < bestD || (d == bestD && f > best) {
        best, bestD := f, d;
      }
    }
    assert list[..|list|] == list;
  }

  /** Only one rate fits that description. */
  lemma ClosestIsUnique(list: seq<int>, target: int, f: int, g: int)
    requires IsClosest(list, target, f) && IsClosest(list, target, g)
    ensures f == g
  {
  }

  // ---------- BestMatch ----------

  const FAR_FPS := 0x4000_0000

  function NearestGap(fps: seq<int>, want: int): int {
    if fps == [] then FAR_FPS
    else
      var rest, d := NearestGap(fps[..|fps| - 1], want), Dist(want, fps[|fps| - 1]);
      if d < rest then d else rest
  }

  /** Squared distance in width, height and nearest rate, in 64-bit arithmetic. */
  function Score(m: VideoMode, wantW: int, wantH: int, wantFps: int): int {
    var gap := if wantFps > 0 && m.fps != [] then NearestGap(m.fps, wantFps) else 0;
    Wrap64(Dist(wantW, m.w) * Dist(wantW, m.w) + Dist(wantH, m.h) * Dist(wantH, m.h) + gap * gap)
  }

  /** NearestGap is the smallest gap to a listed rate, capped at 2^30. */
  lemma {:induction false} NearestGapIsMinimum(fps: seq<int>, want: int)
    ensures 0 <= NearestGap(fps, want) <= FAR_FPS
    ensures forall f | f in fps :: NearestGap(fps, want) <= Dist(want, f)
    ensures NearestGap(fps, want) == FAR_FPS || exists f :: f in fps && NearestGap(fps, want) == Dist(want, f)
  {
    if fps != [] {
      NearestGapIsMinimum(fps[..|fps| - 1], want);
      assert fps == fps[..|fps| - 1] + [fps[|fps| - 1]];
    }
  }

  /** For sizes a camera can have, the score is the exact sum of squares. */
  lemma ScoreIsExact(m: VideoMode, wantW: int, wantH: int, wantFps: int)
    requires Dist(wantW, m.w) <= 0x4000_0000 && Dist(wantH, m.h) <= 0x4000_0000
    ensures var gap := if wantFps > 0 && m.fps != [] then NearestGap(m.fps, wantFps) else 0;
            Score(m, wantW, wantH, wantFps) ==
            Dist(wantW, m.w) * Dist(wantW, m.w) + Dist(wantH, m.h) * Dist(wantH, m.h) + gap * gap
  {
    NearestGapIsMinimum(m.fps, wantFps);
    var gap := if wantFps > 0 && m.fps != [] then NearestGap(m.fps, wantFps) else 0;
    SquareBound(Dist(wantW, m.w));
    SquareBound(Dist(wantH, m.h));
    SquareBound(gap);
    WrapRange(Dist(wantW, m.w) * Dist(wantW, m.w) + Dist(wantH, m.h) * Dist(wantH, m.h) + gap * gap);
  }

  lemma MulNonNegative(a: int, b: int)
    requires a >= 0 && b >= 0
    ensures a * b >= 0
  {
  }

  lemma SquareBound(x: int)
    requires 0 <= x <= 0x4000_0000
    ensures 0 <= x * x <= 0x1000_0000_0000_0000
  {
    var c := 0x4000_0000;
    MulNonNegative(x, c - x);
    assert x * (c - x) == x * c - x * x;
  }

  /** m is the first minimiser of score among the first n modes that satisfy ok; scores of
      MAX_INT64 are never chosen. */
  ghost predicate FirstBest(modes: seq<VideoMode>, ok: VideoMode -> bool, score: VideoMode -> int, m: VideoMode) {
    exists i | 0 <= i < |modes| ::
      && modes[i] == m && ok(m) && score(m) < MAX_INT64
      && (forall j | 0 <= j < |modes| && ok(modes[j]) :: score(m) <= score(modes[j]))
      && (forall j | 0 <= j < i && ok(modes[j]) :: score(m) < score(modes[j]))
  }

  ghost predicate NoneBest(modes: seq<VideoMode>, ok: VideoMode -> bool, score: VideoMode -> int) {
    forall j | 0 <= j < |modes| && ok(modes[j]) :: score(modes[j]) >= MAX_INT64
  }

  /** One pass of BestMatch. */
  method Pass(modes: seq<VideoMode>, ok: VideoMode -> bool, score: VideoMode -> int) returns (best: VideoMode,
      found: bool)
    ensures found ==> FirstBest(modes, ok, score, best)
    ensures !found ==> NoneBest(modes, ok, score)
  {
    var bestScore := MAX_INT64;
    best, found := VideoMode("", 0, 0, []), false;
    ghost var at := 0;
    for i := 0 to |modes|
      invariant found ==> 0 <= at < i && modes[at] == best && ok(best) && bestScore == score(best) < MAX_INT64
                          && forall j | 0 <= j < at && ok(modes[j]) :: bestScore < score(modes[j])
      invariant !found ==> bestScore == MAX_INT64
      invariant forall j | 0 <= j < i && ok(modes[j]) :: bestScore <= score(modes[j])
    {
      if ok(modes[i]) {
        var s := score(modes[i]);
        if s < bestScore {
          bestScore, best, found, at := s, modes[i], true, i;
        }
      }
    }
  }

  predicate Matches(pref: string, m: VideoMode) {
    pref == "" || ToUpper(m.pixFmt) == pref
  }

  /** The first minimiser among the modes of the preferred format; failing that, among all. */
  method BestMatch(caps: Option<seq<VideoMode>>, preferred: string, wantW: int, wantH: int, wantFps: int)
    returns (best: VideoMode, found: bool)
    ensures caps.None? ==> !found
    ensures caps.Some? ==>
            var pref, modes := ToUpper(TrimSpace(preferred)), caps.value;
            var score := (m: VideoMode) => Score(m, wantW, wantH, wantFps);
            if NoneBest(modes, m => Matches(pref, m), score)
            then (if found then FirstBest(modes, m => true, score, best) else NoneBest(modes, m => true, score))
            else found && FirstBest(modes, m => Matches(pref, m), score, best)
  {
    if caps.None? {
      return VideoMode("", 0, 0, []), false;
    }
    var pref := ToUpper(TrimSpace(preferred));
    var score := (m: VideoMode) => Score(m, wantW, wantH, wantFps);
    best, found := Pass(caps.value, m => Matches(pref, m), score);
    if found {
      return;
    }
    if pref != "" {
      best, found := Pass(caps.value, m => true, score);
    }
  }

  /** With sizes a camera can have, a mode is found exactly when there is one, in the preferred
      format exactly when one has it. */
  lemma RealModesAreFound(modes: seq<VideoMode>, ok: VideoMode -> bool, wantW: int, wantH: int, wantFps: int)
    requires forall m | m in modes :: Dist(wantW, m.w) <= 0x4000_0000 && Dist(wantH, m.h) <= 0x4000_0000
    ensures NoneBest(modes, ok, m => Score(m, wantW, wantH, wantFps)) <==> forall m | m in modes :: !ok(m)
  {
    forall m | m in modes
      ensures Score(m, wantW, wantH, wantFps) < MAX_INT64
    {
      ScoreIsExact(m, wantW, wantH, wantFps);
      NearestGapIsMinimum(m.fps, wantFps);
      SquareBound(Dist(wantW, m.w));
      SquareBound(Dist(wantH, m.h));
      SquareBound(if wantFps > 0 && m.fps != [] then NearestGap(m.fps, wantFps) else 0);
    }
  }

  /** BestMatch in camera terms, for sizes a camera can have: with a mode in the preferred format (in
      any case, blank for any) the match is such a mode, and none in that format is nearer in width,
      height and rate together; without one, the same holds over all modes. */
  lemma MatchIsNearest(modes: seq<VideoMode>, pref: string, wantW: int, wantH: int, wantFps: int, best: VideoMode)
    requires modes != [] && -CAMERA_LIMIT <= wantW <= CAMERA_LIMIT && -CAMERA_LIMIT <= wantH <= CAMERA_LIMIT
    requires forall m | m in modes :: m.w <= CAMERA_LIMIT && m.h <= CAMERA_LIMIT
    requires var score := (m: VideoMode) => Score(m, wantW, wantH, wantFps);
             if NoneBest(modes, m => Matches(pref, m), score) then FirstBest(modes, m => true, score, best)
             else FirstBest(modes, m => Matches(pref, m), score, best)
    ensures best in modes
    ensures (exists m | m in modes :: pref == "" || ToUpper(m.pixFmt) == pref) ==>
              pref == "" || ToUpper(best.pixFmt) == pref
    ensures forall m | m in modes && ((pref == "" || ToUpper(m.pixFmt) == pref)
                                      || forall n | n in modes :: !(pref == "" || ToUpper(n.pixFmt) == pref)) ::
              Away(best, wantW, wantH, wantFps) <= Away(m, wantW, wantH, wantFps)
  {
    forall m | m in modes
      ensures Score(m, wantW, wantH, wantFps) == Away(m, wantW, wantH, wantFps)
    {
      ScoreIsExact(m, wantW, wantH, wantFps);
      DistSquared(wantW, m.w);
      DistSquared(wantH, m.h);
    }
    RealModesAreFound(modes, m => Matches(pref, m), wantW, wantH, wantFps);
  }

  const CAMERA_LIMIT := 0x2000_0000

  /** The squared distance of a mode: width, height, and the least gap of a listed rate where one is
      asked for. */
  function Away(m: VideoMode, w: int, h: int, fps: int): int {
    (m.w - w) * (m.w - w) + (m.h - h) * (m.h - h)
    + (if fps > 0 && m.fps != [] then NearestGap(m.fps, fps) * NearestGap(m.fps, fps) else 0)
  }

  lemma DistSquared(x: int, y: int)
    ensures Dist(x, y) * Dist(x, y) == (y - x) * (y - x) && Dist(x, y) >= 0
  {
  }

  // ---------- pickBestMode ----------

  datatype Request = Request(pixFmt: string, w: int, h: int, fps: int, preferCamH264: bool)

  function ReqPix(r: Request): string {
    if Norm(r.pixFmt) == "" then "AUTO" else Norm(r.pixFmt)
  }

  function Wanted(r: Request, modes: seq<VideoMode>): seq<VideoMode> {
    if modes == [] then []
    else
      var before, m := Wanted(r, modes[..|modes| - 1]), modes[|modes| - 1];
      if ReqPix(r) != "AUTO" && Norm(m.pixFmt) != ReqPix(r) then before else before + [m]
  }

  /** The modes of the requested format, or all modes if there is none. */
  function Candidates(r: Request, modes: seq<VideoMode>): seq<VideoMode> {
    if Wanted(r, modes) == [] then modes else Wanted(r, modes)
  }

  predicate InFormat(r: Request, m: VideoMode) {
    ReqPix(r) == "AUTO" || Norm(m.pixFmt) == ReqPix(r)
  }

  lemma {:induction false} WantedIsFilter(r: Request, modes: seq<VideoMode>)
    ensures forall m :: m in Wanted(r, modes) <==> m in modes && InFormat(r, m)
  {
    if modes != [] {
      WantedIsFilter(r, modes[..|modes| - 1]);
      assert modes == modes[..|modes| - 1] + [modes[|modes| - 1]];
    }
  }

  /** m is a listed mode, in the requested format if any listed one is, in any case. */
  ghost predicate Choosable(r: Request, modes: seq<VideoMode>, m: VideoMode) {
    var pix := ToUpper(TrimSpace(r.pixFmt));
    && m in modes
    && (pix != "" && pix != "AUTO" && (exists n :: n in modes && ToUpper(TrimSpace(n.pixFmt)) == pix) ==>
          ToUpper(TrimSpace(m.pixFmt)) == pix)
  }

  lemma CandidatesAreChoosable(r: Request, modes: seq<VideoMode>)
    ensures forall m :: m in Candidates(r, modes) <==> Choosable(r, modes, m)
  {
    WantedIsFilter(r, modes);
    var pix := ToUpper(TrimSpace(r.pixFmt));
    assert forall m :: InFormat(r, m) <==> pix == "" || pix == "AUTO" || ToUpper(TrimSpace(m.pixFmt)) == pix;
    if Wanted(r, modes) != [] {
      assert Wanted(r, modes)[0] in Wanted(r, modes);
    }
  }

  function PixPref(pixFmt: string, preferCamH264: bool): int {
    var p := Norm(pixFmt);
    var mjpg, yuyv := p == "MJPG" || p == "MJPEG", p == "YUYV" || p == "YUY2";
    if preferCamH264 then (if p == "H264" then 0 else if mjpg then 1 else if yuyv then 2 else 3)
    else (if mjpg then 0 else if yuyv then 1 else if p == "H264" then 2 else 3)
  }

  // resDist stands for the Euclidean distance in width and height.
  type ResDist = (int, int) -> real

  datatype Scored = Scored(mode: VideoMode, fps: int, score: real)

  function ScoreOf(r: Request, resDist: ResDist, m: VideoMode, fps: int): real {
    resDist(m.w - r.w, m.h - r.h) + Dist(fps, r.fps) as real * 2.0
    + (if ReqPix(r) == "AUTO" then PixPref(m.pixFmt, r.preferCamH264) as real * 5.0 else 0.0)
  }

  predicate Better(a: Scored, b: Scored) {
    if a.score != b.score then a.score < b.score else a.fps > b.fps
  }

  /** The rate a mode is used with: its closest one, or the requested one if it lists none. */
  ghost predicate RateFor(m: VideoMode, want: int, fps: int) {
    if m.fps == [] then fps == want else IsClosest(m.fps, want, fps)
  }

  predicate ExactSize(r: Request, m: VideoMode) {
    m.w == r.w && m.h == r.h
  }

  /** The score in words: the distance in size, two per frame a second off, and, when no format is
      asked for, five for every place of the format in the order MJPG, YUYV, H264, others, or with
      H.264 capture preferred H264, MJPG, YUYV, others. */
  lemma ScoreInWords(r: Request, resDist: ResDist, m: VideoMode, fps: int)
    ensures var base, p := resDist(m.w - r.w, m.h - r.h), ToUpper(TrimSpace(m.pixFmt));
            var off := base + 2.0 * (if fps > r.fps then fps - r.fps else r.fps - fps) as real;
            var any := ToUpper(TrimSpace(r.pixFmt)) == "" || ToUpper(TrimSpace(r.pixFmt)) == "AUTO";
            && (!any ==> ScoreOf(r, resDist, m, fps) == off)
            && (any && (p == "MJPG" || p == "MJPEG") ==>
                  ScoreOf(r, resDist, m, fps) == if r.preferCamH264 then off + 5.0 else off)
            && (any && (p == "YUYV" || p == "YUY2") ==>
                  ScoreOf(r, resDist, m, fps) == if r.preferCamH264 then off + 10.0 else off + 5.0)
            && (any && p == "H264" ==> ScoreOf(r, resDist, m, fps) == if r.preferCamH264 then off else off + 10.0)
            && (any && p !in ["MJPG", "MJPEG", "YUYV", "YUY2", "H264"] ==>
                  ScoreOf(r, resDist, m, fps) == off + 15.0)
  {
    assert "H264"[0] != "MJPG"[0] && "H264"[0] != "YUYV"[0] && "MJPG"[0] != "YUYV"[0] && "MJPEG"[0] == "MJPG"[0];
    assert "YUY2"[0] == "YUYV"[0] && "AUTO"[0] != "MJPG"[0];
  }

  /** Candidate i is the first of exactly the requested size. */
  ghost predicate FirstExact(r: Request, candidates: seq<VideoMode>, i: nat) {
    && i < |candidates| && candidates[i].w == r.w && candidates[i].h == r.h
    && forall j: nat | j < i :: candidates[j].w != r.w || candidates[j].h != r.h
  }

  /** A candidate of exactly the requested size if there is one, the first such; otherwise a
      candidate no other beats on score, ties going to the higher rate. Its rate is the closest
      one it lists. */
  method PickBestMode(modes: seq<VideoMode>, r: Request, resDist: ResDist) returns (mode: VideoMode, fps: int)
    requires modes != []
    ensures Choosable(r, modes, mode) && mode in Candidates(r, modes) && RateFor(mode, r.fps, fps)
    ensures forall i: nat | FirstExact(r, Candidates(r, modes), i) :: mode == Candidates(r, modes)[i]
    ensures (forall m | m in Candidates(r, modes) :: m.w != r.w || m.h != r.h) ==>
              forall m, f | m in Candidates(r, modes) && RateFor(m, r.fps, f) ::
                var other, own := ScoreOf(r, resDist, m, f), ScoreOf(r, resDist, mode, fps);
                own < other || (own == other && fps >= f)
  {
    var candidates := Filter(modes, r);
    CandidatesAreChoosable(r, modes);
    for i := 0 to |candidates|
      invariant forall j | 0 <= j < i :: !ExactSize(r, candidates[j])
    {
      var m := candidates[i];
      if ExactSize(r, m) {
        if r.fps in m.fps {
          return m, r.fps;
        }
        fps := ClosestFPS(m.fps, r.fps);
        return m, fps;
      }
    }
    var list := ScoreAll(candidates, r, resDist);
    assert Sorting.WeakOrder(Better);
    var sorted := Sorting.SortSlice(list, Better);
    Sorting.MultisetElements(sorted, list);
    mode, fps := sorted[0].mode, sorted[0].fps;
    assert sorted[0] in list;
    forall m, f | m in candidates && RateFor(m, r.fps, f)
      ensures !Better(Scored(m, f, ScoreOf(r, resDist, m, f)), sorted[0])
    {
      var x :| x in list && x.mode == m;
      assert x in sorted;
      assert x.fps == f by {
        if m.fps != [] {
          ClosestIsUnique(m.fps, r.fps, x.fps, f);
        }
      }
    }
  }

  method Filter(modes: seq<VideoMode>, r: Request) returns (candidates: seq<VideoMode>)
    ensures candidates == Candidates(r, modes)
  {
    candidates := [];
    for i := 0 to |modes|
      invariant candidates == Wanted(r, modes[..i])
    {
      assert modes[..i + 1][..i] == modes[..i];
      if ReqPix(r) != "AUTO" && Norm(modes[i].pixFmt) != ReqPix(r) {
        continue;
      }
      candidates := candidates + [modes[i]];
    }
    assert modes[..|modes|] == modes;
    if |candidates| == 0 {
      candidates := modes;
    }
  }

  method ScoreAll(candidates: seq<VideoMode>, r: Request, resDist: ResDist) returns (list: seq<Scored>)
    ensures |list| == |candidates|
    ensures forall x | x in list ::
              x.mode in candidates && RateFor(x.mode, r.fps, x.fps) && x.score == ScoreOf(r, resDist, x.mode, x.fps)
    ensures forall m | m in candidates :: exists x :: x in list && x.mode == m
  {
    list := [];
    for i := 0 to |candidates|
      invariant |list| == i
      invariant forall k | 0 <= k < i :: list[k].mode == candidates[k] && RateFor(list[k].mode, r.fps, list[k].fps)
                                         && list[k].score == ScoreOf(r, resDist, list[k].mode, list[k].fps)
    {
      var m := candidates[i];
      var f := ClosestFPS(m.fps, r.fps);
      list := list + [Scored(m, f, ScoreOf(r, resDist, m, f))];
    }
    forall m | m in candidates
      ensures exists x :: x in list && x.mode == m
    {
      var k :| 0 <= k < |candidates| && candidates[k] == m;
      assert list[k] in list;
    }
  }
}
