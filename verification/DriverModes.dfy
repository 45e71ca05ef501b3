/** The driver modes and the keys each one writes. */
module DriverModes {
  import opened ModeProperties
  import opened Options
  import opened Strings
  import opened UserProperties

  const VULKAN := "ro.hardware.vulkan"
  const EGL := "ro.hardware.egl"
  const GL_PRELOAD := "ro.zygote.disable_gl_preload"
  const VN_DEBUG := "mesa.vn.debug"
  const VTEST_SOCKET := "mesa.vtest.socket.name"
  const CCODEC := "debug.stagefright.ccodec"
  const OMX_AUDIO := "debug.stagefright.omx_default_rank.sw-audio"
  const OMX_OTHER := "debug.stagefright.omx_default_rank.sw-other"
  const DECODE_ROUTE := "persist.waydroid.nvidia_video_decode"

  /** A native mode lists the hardware codecs (`media`) from the vendor image, or from a root whose
      manifest stages them. */
  datatype DriverMode = Venus(socket: string) | Native(egl: string, media: bool)

  const MEDIA_PAIRS: seq<Pair> := [(CCODEC, Some("4")), (OMX_AUDIO, Some("4")), (OMX_OTHER, Some("256"))]

  function ModePairs(dm: DriverMode): seq<Pair> {
    match dm
    case Venus(socket) =>
      [(VULKAN, Some("virtio")), (EGL, Some("angle")), (GL_PRELOAD, None), (VN_DEBUG, Some("vtest")),
       (VTEST_SOCKET, Some("/dev/venus/" + Basename(socket)))]
    case Native(egl, media) =>
      [(VULKAN, Some("nvidia")), (EGL, Some(egl)), (GL_PRELOAD, Some("true")), (VN_DEBUG, None), (VTEST_SOCKET, None)]
      + if media then MEDIA_PAIRS else []
  }

  const DERIVED: seq<string> := [VULKAN, EGL, GL_PRELOAD, VN_DEBUG, VTEST_SOCKET, CCODEC, OMX_AUDIO, OMX_OTHER]

  /** check_properties: no derived key, and in a native mode not the decode route either. */
  predicate UserAllowed(user: seq<Entry>, dm: DriverMode) {
    forall j :: 0 <= j < |user| ==>
      user[j].0 !in DERIVED && (dm.Native? ==> user[j].0 != DECODE_ROUTE)
  }

  /** The keys differ in their length, but for the last two. */
  lemma DerivedLengths()
    ensures |VULKAN| == 18 && |EGL| == 15 && |GL_PRELOAD| == 28 && |VN_DEBUG| == 13 && |VTEST_SOCKET| == 22
    ensures |CCODEC| == 24 && |OMX_AUDIO| == |OMX_OTHER| == 43 && OMX_AUDIO[38] != OMX_OTHER[38]
  {}

  lemma DerivedDistinct(i: nat, j: nat)
    requires i < j < |DERIVED|
    ensures DERIVED[i] != DERIVED[j]
  {
    DerivedLengths();
    var lengths := [18, 15, 28, 13, 22, 24, 43, 43];
    assert |DERIVED[i]| == lengths[i] && |DERIVED[j]| == lengths[j];
  }

  lemma PlatformKeysPlain()
    ensures '=' !in VULKAN && '=' !in EGL && '=' !in GL_PRELOAD && '=' !in VN_DEBUG && '=' !in VTEST_SOCKET
  {}

  lemma MediaKeysPlain()
    ensures '=' !in CCODEC && '=' !in OMX_AUDIO && '=' !in OMX_OTHER
  {}

  lemma DerivedKeys()
    ensures forall i :: 0 <= i < |DERIVED| ==> '=' !in DERIVED[i]
  {
    PlatformKeysPlain();
    MediaKeysPlain();
  }

  /** Every key a mode writes is derived, so no accepted user entry has it. */
  lemma ModeKeys(dm: DriverMode)
    ensures |ModePairs(dm)| <= |DERIVED|
    ensures forall i :: 0 <= i < |ModePairs(dm)| ==> ModePairs(dm)[i].0 == DERIVED[i]
  {}

  lemma ModePairsFine(dm: DriverMode)
    ensures WellFormed(ModePairs(dm))
  {
    DerivedKeys();
    ModeKeys(dm);
    forall i, j | 0 <= i < j < |ModePairs(dm)| ensures ModePairs(dm)[i].0 != ModePairs(dm)[j].0 {
      DerivedDistinct(i, j);
    }
  }

  /** The lines a mode ends the file with. */
  function LinesOf(dm: DriverMode): seq<string> {
    match dm
    case Venus(socket) =>
      ["ro.hardware.vulkan=virtio", "ro.hardware.egl=angle", "mesa.vn.debug=vtest",
       "mesa.vtest.socket.name=/dev/venus/" + Basename(socket)]
    case Native(egl, media) =>
      ["ro.hardware.vulkan=nvidia", "ro.hardware.egl=" + egl, "ro.zygote.disable_gl_preload=true"]
      + if media then ["debug.stagefright.ccodec=4", "debug.stagefright.omx_default_rank.sw-audio=4",
                       "debug.stagefright.omx_default_rank.sw-other=256"] else []
  }

  /** A line that sets none of the keys a mode settles. */
  predicate SetsNone(l: string, dm: DriverMode) {
    && !StartsWith(l, "ro.hardware.vulkan=") && !StartsWith(l, "ro.hardware.egl=")
    && !StartsWith(l, "ro.zygote.disable_gl_preload=") && !StartsWith(l, "mesa.vn.debug=")
    && !StartsWith(l, "mesa.vtest.socket.name=")
    && (dm.Native? && dm.media ==>
          && !StartsWith(l, "debug.stagefright.ccodec=")
          && !StartsWith(l, "debug.stagefright.omx_default_rank.sw-audio=")
          && !StartsWith(l, "debug.stagefright.omx_default_rank.sw-other="))
  }

  lemma PlatformKeysSpelled()
    ensures VULKAN + "=" == "ro.hardware.vulkan=" && EGL + "=" == "ro.hardware.egl="
    ensures GL_PRELOAD + "=" == "ro.zygote.disable_gl_preload=" && VN_DEBUG + "=" == "mesa.vn.debug="
    ensures VTEST_SOCKET + "=" == "mesa.vtest.socket.name="
  {}

  lemma MediaKeysSpelled()
    ensures CCODEC + "=" == "debug.stagefright.ccodec="
    ensures OMX_AUDIO + "=" == "debug.stagefright.omx_default_rank.sw-audio="
    ensures OMX_OTHER + "=" == "debug.stagefright.omx_default_rank.sw-other="
  {}

  lemma SettlesOne(l: string, dm: DriverMode, i: nat)
    requires SetsNone(l, dm) && i < if dm.Native? && dm.media then 8 else 5
    ensures !StartsWith(l, DERIVED[i] + "=")
  {
    PlatformKeysSpelled();
    MediaKeysSpelled();
  }

  lemma Settling(l: string, dm: DriverMode) returns (i: nat)
    requires !SetsNone(l, dm)
    ensures i < (if dm.Native? && dm.media then 8 else 5) && StartsWith(l, DERIVED[i] + "=")
  {
    PlatformKeysSpelled();
    MediaKeysSpelled();
    i := if StartsWith(l, VULKAN + "=") then 0 else if StartsWith(l, EGL + "=") then 1
         else if StartsWith(l, GL_PRELOAD + "=") then 2 else if StartsWith(l, VN_DEBUG + "=") then 3
         else if StartsWith(l, VTEST_SOCKET + "=") then 4 else if StartsWith(l, CCODEC + "=") then 5
         else if StartsWith(l, OMX_AUDIO + "=") then 6 else 7;
  }

  lemma SettlesIs(l: string, dm: DriverMode)
    ensures Other(ModePairs(dm))(l) <==> SetsNone(l, dm)
  {
    var n := |ModePairs(dm)|;
    DerivedKeys();
    ModeKeys(dm);
    forall i | 0 <= i < n ensures HasKey(l, ModePairs(dm)[i].0) <==> StartsWith(l, DERIVED[i] + "=") {
      PrefixIsKey(l, DERIVED[i]);
    }
    assert n == if dm.Native? && dm.media then 8 else 5;
    if SetsNone(l, dm) {
      forall i | 0 <= i < n ensures !StartsWith(l, DERIVED[i] + "=") { SettlesOne(l, dm, i); }
    } else {
      var i := Settling(l, dm);
      assert HasKey(l, ModePairs(dm)[i].0);
    }
  }

  lemma TwoModeLines(two: seq<Pair>)
    requires |two| == 2
    ensures ModeLines(two) == PairLines(two[0]) + PairLines(two[1])
  {
    ModeLinesOneMore([], two[0]);
    ModeLinesOneMore([two[0]], two[1]);
    assert [] + [two[0]] == [two[0]] && [two[0]] + [two[1]] == two;
  }

  lemma ThreeModeLines(p: Pair, q: Pair, r: Pair)
    ensures ModeLines([p, q, r]) == PairLines(p) + PairLines(q) + PairLines(r)
  {
    TwoModeLines([p, q]);
    ModeLinesOneMore([p, q], r);
    assert [p, q] + [r] == [p, q, r];
  }

  lemma VenusLines(socket: string)
    ensures Line(VULKAN, "virtio") == "ro.hardware.vulkan=virtio" && Line(EGL, "angle") == "ro.hardware.egl=angle"
    ensures Line(VN_DEBUG, "vtest") == "mesa.vn.debug=vtest"
    ensures Line(VTEST_SOCKET, "/dev/venus/" + Basename(socket)) ==
      "mesa.vtest.socket.name=/dev/venus/" + Basename(socket)
  {
    PlatformKeysSpelled();
    assert "mesa.vtest.socket.name=" + "/dev/venus/" == "mesa.vtest.socket.name=/dev/venus/";
  }

  lemma NativeLines(egl: string)
    ensures Line(VULKAN, "nvidia") == "ro.hardware.vulkan=nvidia" && Line(EGL, egl) == "ro.hardware.egl=" + egl
    ensures Line(GL_PRELOAD, "true") == "ro.zygote.disable_gl_preload=true"
  {
    PlatformKeysSpelled();
  }

  lemma MediaLines()
    ensures Line(CCODEC, "4") == "debug.stagefright.ccodec=4"
    ensures Line(OMX_AUDIO, "4") == "debug.stagefright.omx_default_rank.sw-audio=4"
    ensures Line(OMX_OTHER, "256") == "debug.stagefright.omx_default_rank.sw-other=256"
  {
    MediaKeysSpelled();
  }

  lemma FiveModeLines(pairs: seq<Pair>)
    requires |pairs| == 5
    ensures ModeLines(pairs) ==
      PairLines(pairs[0]) + PairLines(pairs[1]) + PairLines(pairs[2]) + PairLines(pairs[3]) + PairLines(pairs[4])
  {
    ThreeModeLines(pairs[0], pairs[1], pairs[2]);
    TwoModeLines(pairs[3..]);
    ModeLinesConcat(pairs[..3], pairs[3..]);
    assert pairs[..3] == [pairs[0], pairs[1], pairs[2]] && pairs == pairs[..3] + pairs[3..];
  }

  lemma LinesAre(dm: DriverMode)
    ensures ModeLines(ModePairs(dm)) == LinesOf(dm)
  {
    var pairs := ModePairs(dm);
    FiveModeLines(pairs[..5]);
    if dm.Venus? {
      VenusLines(dm.socket);
      assert pairs == pairs[..5];
    } else {
      NativeLines(dm.egl);
      MediaLines();
      ThreeModeLines(MEDIA_PAIRS[0], MEDIA_PAIRS[1], MEDIA_PAIRS[2]);
      ModeLinesConcat(pairs[..5], pairs[5..]);
      assert pairs == pairs[..5] + pairs[5..] && pairs[5..] == if dm.media then MEDIA_PAIRS else [];
    }
  }

  /** apply_mode_properties for a mode: lines that set none of its keys stay in order, its own follow. */
  method GenerateBaseProp(ls: seq<string>, dm: DriverMode) returns (props: seq<string>)
    ensures props == Keep(l => SetsNone(l, dm), ls) + LinesOf(dm)
    ensures props == Applied(ls, ModePairs(dm))
  {
    ModePairsFine(dm);
    props := ApplyModeProperties(ls, ModePairs(dm));
    LinesAre(dm);
    forall l ensures Other(ModePairs(dm))(l) <==> SetsNone(l, dm) { SettlesIs(l, dm); }
    KeepSame(Other(ModePairs(dm)), l => SetsNone(l, dm), ls);
  }

  /** What the start check of a mode looks for: how a line starts, and the last such line. */
  function Wanted(dm: DriverMode): seq<(string, Option<string>)> {
    match dm
    case Venus(socket) =>
      [("ro.hardware.vulkan=", Some("ro.hardware.vulkan=virtio")), ("ro.hardware.egl=", Some("ro.hardware.egl=angle")),
       ("ro.zygote.disable_gl_preload=", None), ("mesa.vn.debug=", Some("mesa.vn.debug=vtest")),
       ("mesa.vtest.socket.name=", Some("mesa.vtest.socket.name=/dev/venus/" + Basename(socket)))]
    case Native(egl, media) =>
      [("ro.hardware.vulkan=", Some("ro.hardware.vulkan=nvidia")), ("ro.hardware.egl=", Some("ro.hardware.egl=" + egl)),
       ("ro.zygote.disable_gl_preload=", Some("ro.zygote.disable_gl_preload=true")), ("mesa.vn.debug=", None),
       ("mesa.vtest.socket.name=", None)]
      + if media then
          [("debug.stagefright.ccodec=", Some("debug.stagefright.ccodec=4")),
           ("debug.stagefright.omx_default_rank.sw-audio=", Some("debug.stagefright.omx_default_rank.sw-audio=4")),
           ("debug.stagefright.omx_default_rank.sw-other=", Some("debug.stagefright.omx_default_rank.sw-other=256"))]
        else []
  }

  lemma WantedIs(dm: DriverMode, i: nat)
    requires i < |ModePairs(dm)|
    ensures |Wanted(dm)| == |ModePairs(dm)| && Wanted(dm)[i].0 == ModePairs(dm)[i].0 + "="
    ensures Wanted(dm)[i].1 ==
      match ModePairs(dm)[i].1 case Some(v) => Some(ModePairs(dm)[i].0 + "=" + v) case None => None
  {
    PlatformKeysSpelled();
    MediaKeysSpelled();
    MediaLines();
    if dm.Venus? { VenusLines(dm.socket); } else { NativeLines(dm.egl); }
  }

  /** check_base_prop for a mode. */
  method CheckModeFile(ls: seq<string>, dm: DriverMode) returns (ok: bool)
    ensures ok <==> forall i :: 0 <= i < |Wanted(dm)| ==> LastWith(ls, Wanted(dm)[i].0) == Wanted(dm)[i].1
    ensures ok <==> Accepts(ls, ModePairs(dm))
  {
    ok := CheckBaseProp(ls, ModePairs(dm));
    WantedIs(dm, 0);
    ModePairsFine(dm);
    forall i | 0 <= i < |Wanted(dm)|
      ensures LastWith(ls, Wanted(dm)[i].0) == Wanted(dm)[i].1 <==> Get(ls, ModePairs(dm)[i].0) == ModePairs(dm)[i].1
    {
      WantedIs(dm, i);
      GetIsLast(ls, ModePairs(dm)[i]);
    }
  }

  lemma AllowedApart(user: seq<Entry>, dm: DriverMode, i: nat, j: nat)
    requires UserAllowed(user, dm) && i < |ModePairs(dm)| && j < |user|
    ensures user[j].0 != ModePairs(dm)[i].0
  {
    ModeKeys(dm);
  }

  /** Entries check_properties accepts are of no key of the mode. */
  lemma AllowedForeign(user: seq<Entry>, dm: DriverMode)
    requires UserAllowed(user, dm) && forall j :: 0 <= j < |user| ==> '=' !in user[j].0
    ensures WellFormed(ModePairs(dm)) && Foreign(ModePairs(dm), user)
  {
    ModePairsFine(dm);
    forall i, j | 0 <= i < |ModePairs(dm)| && 0 <= j < |user| ensures user[j].0 != ModePairs(dm)[i].0 {
      AllowedApart(user, dm, i, j);
    }
  }

  /** For every mode, base file and accepted user entries, and whatever becomes of the lines an entry
      matches: the start check passes if no user key is mentioned in one of the mode's lines. */
  lemma ModeFilePasses(ls: seq<string>, dm: DriverMode, user: seq<Entry>, files: seq<seq<string>>)
    requires UserAllowed(user, dm) && forall j :: 0 <= j < |user| ==> '=' !in user[j].0
    requires Run(files, user) && files[0] == Applied(ls, ModePairs(dm)) && Unharmed(ModePairs(dm), user)
    ensures Accepts(files[|user|], ModePairs(dm))
  {
    AllowedForeign(user, dm);
    UnharmedPasses(ls, ModePairs(dm), user, files);
  }

  /** Without user entries it always passes. */
  lemma PlainModeFilePasses(ls: seq<string>, dm: DriverMode)
    ensures Accepts(Applied(ls, ModePairs(dm)), ModePairs(dm))
  {
    ModeFilePasses(ls, dm, [], [Applied(ls, ModePairs(dm))]);
  }

  lemma EglPair(dm: DriverMode)
    ensures |ModePairs(dm)| > 1 && ModePairs(dm)[1].0 == EGL && ModePairs(dm)[1].1.Some?
    ensures ModePairs(dm)[0].0 == VULKAN && ModePairs(dm)[0].1 in {Some("virtio"), Some("nvidia")}
  {}

  lemma {:induction false} ModeLinesPrefix(pairs: seq<Pair>, n: nat)
    requires n <= |pairs|
    ensures ModeLines(pairs[..n]) <= ModeLines(pairs)
  {
    if n == |pairs| {
      assert pairs[..n] == pairs;
    } else {
      var init := pairs[..|pairs| - 1];
      ModeLinesPrefix(init, n);
      assert init[..n] == pairs[..n];
    }
  }

  lemma FirstModeLines(pairs: seq<Pair>)
    requires |pairs| > 1
    ensures PairLines(pairs[0]) + PairLines(pairs[1]) <= ModeLines(pairs)
  {
    ModeLinesPrefix(pairs, 2);
    TwoModeLines(pairs[..2]);
  }

  lemma EglMentioned(val: string, v: string)
    ensures Mentions(Line(EGL, val), ("egl", v))
  {
    assert Line(EGL, val)[12..16] == "egl=";
    assert OccursAt(Line(EGL, val), "egl" + "=", 12);
  }

  lemma VulkanNotMentioned(val: string, v: string)
    requires val in {"virtio", "nvidia"}
    ensures !Mentions(Line(VULKAN, val), ("egl", v))
  {
    assert VULKAN[|VULKAN| - 3..][0] == 'k';
    MentionIsSuffix(VULKAN, val, "egl");
  }

  lemma EglAllowed(v: string, dm: DriverMode)
    ensures UserAllowed([("egl", v)], dm)
  {}

  /** Every reading takes the mode's ro.hardware.egl line: where lines are popped, the line before it
      does not mention the entry. */
  lemma EglTaken(how: Reading, ls: seq<string>, dm: DriverMode, v: string)
    ensures |ModePairs(dm)| > 1 && ModePairs(dm)[1].1.Some?
    ensures Taken(how, Applied(ls, ModePairs(dm)), [("egl", v)], Line(ModePairs(dm)[1].0, ModePairs(dm)[1].1.value))
  {
    var pairs, u: Entry := ModePairs(dm), ("egl", v);
    EglPair(dm);
    var base, val := Applied(ls, pairs), pairs[1].1.value;
    EglMentioned(val, v);
    if how.PopEnumerating? {
      FirstModeLines(pairs);
      VulkanNotMentioned(pairs[0].1.value, v);
      var n := |Keep(Other(pairs), ls)| + 1;
      assert base[n] == Line(EGL, val) && base[n - 1] == Line(VULKAN, pairs[0].1.value);
      PoppedBehindAnother(base, u, n);
    } else {
      assert TakenAt(how, base, [u], Line(EGL, val), 0);
    }
  }

  /** The substring match does harm in every reading: a user property named `egl` passes check_properties,
      takes the mode's ro.hardware.egl line away, and the container then refuses to start. */
  lemma SuffixKeyBreaksStart(how: Reading, ls: seq<string>, dm: DriverMode, v: string)
    ensures UserAllowed([("egl", v)], dm)
    ensures !Accepts(AfterUser(how, Applied(ls, ModePairs(dm)), [("egl", v)]), ModePairs(dm))
  {
    EglAllowed(v, dm);
    AllowedForeign([("egl", v)], dm);
    EglTaken(how, ls, dm, v);
    PassesExactly(how, ls, ModePairs(dm), [("egl", v)]);
  }
}
