/** What the heartbeat advertises (pkg/device/device.go and the heartbeat loop of
    pkg/stomp/session.go) against what the control loop accepts. */
module Capabilities {
  import opened Vehicle
  import opened Control
  import Strings
  import Sorting

  predicate StringLess(a: string, b: string) {
    if b == "" then false
    else if a == "" then true
    else if a[0] != b[0] then a[0] < b[0]
    else StringLess(a[1..], b[1..])
  }

  lemma {:induction false} StringLessIsAsymmetric(a: string, b: string)
    ensures StringLess(a, b) ==> !StringLess(b, a)
  {
    if a != "" && b != "" && a[0] == b[0] {
      StringLessIsAsymmetric(a[1..], b[1..]);
    }
  }

  lemma {:induction false} StringLessIsNegTransitive(a: string, b: string, c: string)
    ensures StringLess(a, c) ==> StringLess(a, b) || StringLess(b, c)
  {
    if a != "" && b != "" && c != "" && a[0] == b[0] == c[0] {
      StringLessIsNegTransitive(a[1..], b[1..], c[1..]);
    }
  }

  lemma {:induction false} StringLessSeparates(a: string, b: string)
    ensures a != b ==> StringLess(a, b) || StringLess(b, a)
  {
    if a != "" && b != "" && a[0] == b[0] {
      StringLessSeparates(a[1..], b[1..]);
      assert a == [a[0]] + a[1..] && b == [b[0]] + b[1..];
    }
  }

  lemma StringLessIsWeakOrder()
    ensures Sorting.WeakOrder(StringLess)
  {
    forall a, b
      ensures StringLess(a, b) ==> !StringLess(b, a)
    {
      StringLessIsAsymmetric(a, b);
    }
    forall a, b, c
      ensures StringLess(a, c) ==> StringLess(a, b) || StringLess(b, c)
    {
      StringLessIsNegTransitive(a, b, c);
    }
  }

  /** The view of the configuration passed to capability detection. */
  datatype ConfigView =
    ConfigView(mavlinkConnection: string, thrustMode: string, allowGoto: bool, allowRcOverride: bool)

  predicate FwdOnly(thrustMode: string) {
    Strings.ToLower(thrustMode) == Strings.ToLower("THRUST_FWD_ONLY")
  }

  function CapSet(v: ConfigView, video: string, audio: string, controlEnabled: bool): set<string> {
    (if v.mavlinkConnection != "" then {"TELEMETRY"} + (if controlEnabled then {"CONTROL"} else {}) else {})
    + (if video != "" then {"VIDEO_FPV"} else {}) + (if audio != "" then {"AUDIO_MAV"} else {})
    + (if FwdOnly(v.thrustMode) then {"THRUST_FWD_ONLY"} else {"THRUST_FWD_REV"})
    + (if v.allowGoto then {"GOTO"} else {}) + (if v.allowRcOverride then {"RC_OVERRIDE"} else {})
  }

  /** The same case-insensitive test, with capitals. */
  lemma FwdOnlyInCapitals(s: string)
    ensures FwdOnly(s) <==> Strings.ToUpper(s) == "THRUST_FWD_ONLY"
  {
    var name := "THRUST_FWD_ONLY";
    Strings.FoldedEqual(s, name);
    assert Strings.ToUpper(name) == name;
  }

  function Opt(b: bool, name: string): set<string> {
    if b then {name} else {}
  }

  /** The eight names are different from one another. */
  lemma NamesDiffer()
    ensures "TELEMETRY"[0] != "VIDEO_FPV"[0] && "TELEMETRY"[0] != "AUDIO_MAV"[0] && "VIDEO_FPV"[0] != "AUDIO_MAV"[0]
    ensures |"TELEMETRY"| == |"VIDEO_FPV"| == |"AUDIO_MAV"| == 9 && |"CONTROL"| == 7 && |"THRUST_FWD_ONLY"| == 15
    ensures |"THRUST_FWD_REV"| == 14 && |"GOTO"| == 4 && |"RC_OVERRIDE"| == 11
  {
  }

  /** Eight different names, each in the set exactly when its condition holds. */
  lemma UnionOfOptions(t: bool, c: bool, v: bool, a: bool, f: bool, g: bool, r: bool, caps: set<string>)
    requires caps == Opt(t, "TELEMETRY") + Opt(c, "CONTROL") + Opt(v, "VIDEO_FPV") + Opt(a, "AUDIO_MAV")
                     + Opt(f, "THRUST_FWD_ONLY") + Opt(!f, "THRUST_FWD_REV") + Opt(g, "GOTO") + Opt(r, "RC_OVERRIDE")
    ensures ("TELEMETRY" in caps <==> t) && ("CONTROL" in caps <==> c) && ("VIDEO_FPV" in caps <==> v)
    ensures ("AUDIO_MAV" in caps <==> a) && ("THRUST_FWD_ONLY" in caps <==> f) && ("THRUST_FWD_REV" in caps <==> !f)
    ensures ("GOTO" in caps <==> g) && ("RC_OVERRIDE" in caps <==> r)
  {
    NamesDiffer();
    OneOption("TELEMETRY", t, c, v, a, f, g, r, caps);
    OneOption("CONTROL", t, c, v, a, f, g, r, caps);
    OneOption("VIDEO_FPV", t, c, v, a, f, g, r, caps);
    OneOption("AUDIO_MAV", t, c, v, a, f, g, r, caps);
    OneOption("THRUST_FWD_ONLY", t, c, v, a, f, g, r, caps);
    OneOption("THRUST_FWD_REV", t, c, v, a, f, g, r, caps);
    OneOption("GOTO", t, c, v, a, f, g, r, caps);
    OneOption("RC_OVERRIDE", t, c, v, a, f, g, r, caps);
  }

  lemma OneOption(name: string, t: bool, c: bool, v: bool, a: bool, f: bool, g: bool, r: bool, caps: set<string>)
    requires caps == Opt(t, "TELEMETRY") + Opt(c, "CONTROL") + Opt(v, "VIDEO_FPV") + Opt(a, "AUDIO_MAV")
                     + Opt(f, "THRUST_FWD_ONLY") + Opt(!f, "THRUST_FWD_REV") + Opt(g, "GOTO") + Opt(r, "RC_OVERRIDE")
    ensures name in caps <==>
              || (name == "TELEMETRY" && t) || (name == "CONTROL" && c) || (name == "VIDEO_FPV" && v)
              || (name == "AUDIO_MAV" && a) || (name == "THRUST_FWD_ONLY" && f) || (name == "THRUST_FWD_REV" && !f)
              || (name == "GOTO" && g) || (name == "RC_OVERRIDE" && r)
  {
  }

  lemma CapsInWords(v: ConfigView, video: string, audio: string, controlEnabled: bool)
    ensures var caps := CapSet(v, video, audio, controlEnabled);
            && ("TELEMETRY" in caps <==> v.mavlinkConnection != "")
            && ("CONTROL" in caps <==> v.mavlinkConnection != "" && controlEnabled)
            && ("VIDEO_FPV" in caps <==> video != "") && ("AUDIO_MAV" in caps <==> audio != "")
            && ("THRUST_FWD_ONLY" in caps <==> Strings.ToUpper(v.thrustMode) == "THRUST_FWD_ONLY")
            && ("THRUST_FWD_REV" in caps <==> "THRUST_FWD_ONLY" !in caps)
            && ("GOTO" in caps <==> v.allowGoto) && ("RC_OVERRIDE" in caps <==> v.allowRcOverride)
  {
    FwdOnlyInCapitals(v.thrustMode);
    CapSetIsUnion(v, video, audio, controlEnabled);
    UnionOfOptions(v.mavlinkConnection != "", v.mavlinkConnection != "" && controlEnabled, video != "", audio != "",
        FwdOnly(v.thrustMode), v.allowGoto, v.allowRcOverride, CapSet(v, video, audio, controlEnabled));
  }

  lemma NoOtherCaps(v: ConfigView, video: string, audio: string, controlEnabled: bool)
    ensures forall c | c in CapSet(v, video, audio, controlEnabled) ::
              c in ["TELEMETRY", "CONTROL", "VIDEO_FPV", "AUDIO_MAV", "THRUST_FWD_ONLY", "THRUST_FWD_REV", "GOTO",
                    "RC_OVERRIDE"]
  {
  }

  lemma CapSetIsUnion(v: ConfigView, video: string, audio: string, controlEnabled: bool)
    ensures CapSet(v, video, audio, controlEnabled) ==
            Opt(v.mavlinkConnection != "", "TELEMETRY") + Opt(v.mavlinkConnection != "" && controlEnabled, "CONTROL")
            + Opt(video != "", "VIDEO_FPV") + Opt(audio != "", "AUDIO_MAV")
            + Opt(FwdOnly(v.thrustMode), "THRUST_FWD_ONLY") + Opt(!FwdOnly(v.thrustMode), "THRUST_FWD_REV")
            + Opt(v.allowGoto, "GOTO") + Opt(v.allowRcOverride, "RC_OVERRIDE")
  {
  }

  method AppendAll(caps: set<string>) returns (list: seq<string>)
    ensures Sorting.NoDuplicates(list) && forall c :: c in list <==> c in caps
  {
    list := [];
    var rest := caps;
    while rest != {}
      invariant Sorting.NoDuplicates(list) && rest <= caps && forall c :: c in list <==> c in caps && c !in rest
      decreases rest
    {
      var c :| c in rest;
      list, rest := list + [c], rest - {c};
    }
  }

  /** DetectCapabilities: insert into a map, append the keys in whatever order, sort. */
  method DetectCapabilities(v: ConfigView, video: string, audio: string, controlEnabled: bool)
    returns (list: seq<string>)
    ensures Sorting.StrictlySorted(list, StringLess)
    ensures forall c :: c in list <==> c in CapSet(v, video, audio, controlEnabled)
    ensures "TELEMETRY" in list <==> v.mavlinkConnection != ""
    ensures "CONTROL" in list <==> v.mavlinkConnection != "" && controlEnabled
    ensures ("VIDEO_FPV" in list <==> video != "") && ("AUDIO_MAV" in list <==> audio != "")
    ensures "THRUST_FWD_ONLY" in list <==> Strings.ToUpper(v.thrustMode) == "THRUST_FWD_ONLY"
    ensures "THRUST_FWD_REV" in list <==> "THRUST_FWD_ONLY" !in list
    ensures ("GOTO" in list <==> v.allowGoto) && ("RC_OVERRIDE" in list <==> v.allowRcOverride)
    ensures forall c | c in list ::
              c in ["TELEMETRY", "CONTROL", "VIDEO_FPV", "AUDIO_MAV", "THRUST_FWD_ONLY", "THRUST_FWD_REV", "GOTO",
                    "RC_OVERRIDE"]
  {
    NoOtherCaps(v, video, audio, controlEnabled);
    CapsInWords(v, video, audio, controlEnabled);
    var caps := Insert(v, video, audio, controlEnabled);
    list := SortedList(caps);
  }

  method Insert(v: ConfigView, video: string, audio: string, controlEnabled: bool) returns (caps: set<string>)
    ensures caps == CapSet(v, video, audio, controlEnabled)
  {
    caps := {};
    if v.mavlinkConnection != "" {
      caps := caps + {"TELEMETRY"};
      if controlEnabled {
        caps := caps + {"CONTROL"};
      }
    }
    if video != "" {
      caps := caps + {"VIDEO_FPV"};
    }
    if audio != "" {
      caps := caps + {"AUDIO_MAV"};
    }
    caps := caps + (if FwdOnly(v.thrustMode) then {"THRUST_FWD_ONLY"} else {"THRUST_FWD_REV"});
    if v.allowGoto {
      caps := caps + {"GOTO"};
    }
    if v.allowRcOverride {
      caps := caps + {"RC_OVERRIDE"};
    }
  }

  method SortedList(caps: set<string>) returns (list: seq<string>)
    ensures Sorting.StrictlySorted(list, StringLess) && forall c :: c in list <==> c in caps
  {
    StringLessIsWeakOrder();
    var unsorted := AppendAll(caps);
    list := Sorting.SortSlice(unsorted, StringLess);
    Sorting.MultisetElements(list, unsorted);
    Sorting.PermutationKeepsDistinct(unsorted, list);
    forall i, j | 0 <= i < j < |list|
      ensures StringLess(list[i], list[j])
    {
      StringLessSeparates(list[i], list[j]);
    }
  }

  /** The sorted list is the only one with these elements: the map order leaves no trace. */
  lemma CapabilityListIsUnique(a: seq<string>, b: seq<string>)
    requires Sorting.StrictlySorted(a, StringLess) && Sorting.StrictlySorted(b, StringLess)
    requires Sorting.SameElements(a, b)
    ensures a == b
  {
    StringLessIsWeakOrder();
    Sorting.StrictlySortedUnique(a, b, StringLess);
  }

  /** What one heartbeat advertises in a state, the vehicle snapshot arriving in time. */
  function Advertised(cfg: Config, s: Sys, mavlinkConnection: string, thrustMode: string, video: string,
      audio: string): set<string> {
    var aircraft := cfg.hasMavlink && AircraftLike(s.link.view);
    var eff := EffectiveGate(cfg.LocalGate(), s.policy, aircraft);
    var enabled := cfg.hasMavlink && Eligible(s.link.view) && eff.allowControl;
    CapSet(ConfigView(mavlinkConnection, thrustMode, eff.allowGoto, eff.allowRcOverride), video, audio, enabled
        && eff.allowControl)
  }

  /** Advertised equals accepted: in every state, a control message of a kind is accepted exactly
      when the heartbeat of that state lists CONTROL and, for RC override and GOTO, that too. */
  lemma AdvertisedIffAccepted(cfg: Config, s: Sys, conn: string, thrustMode: string, video: string, audio: string,
      kind: Kind)
    requires conn != ""
    ensures var caps := Advertised(cfg, s, conn, thrustMode, video, audio);
            Accepts(cfg, s, kind) <==>
              && "CONTROL" in caps && (kind == RcOverride ==> "RC_OVERRIDE" in caps)
              && (kind == GotoGlobal ==> "GOTO" in caps)
  {
  }
}
