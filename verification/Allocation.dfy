/** Allocating a buffer: the two modifier filters, the memory type, the layout the image must have,
    and the handles that must be gone again at the end. */
module Allocation {
  import opened MemoryTypes
  import opened ModArith
  import opened Modifiers
  import opened Options
  import opened PixelLayout
  import opened VulkanDriver
  import T = TiledLock

  const MAX_MODS: nat := 64

  datatype Feature = Sampled | TransferSrc | TransferDst | ColorAttachment | Storage

  /** One modifier of the format, as the device lists it. */
  datatype Listed = Listed(modifier: nat, planes: nat, features: set<Feature>)

  /** The image query's answer for one modifier. */
  datatype Answer = Answer(ok: bool, exportable: bool, maxWidth: nat, maxHeight: nat)

  /** bpp is 0 for a format outside the whitelist. */
  datatype Request = Request(width: nat, height: nat, bpp: nat, forceLinear: bool, needsMapStride: bool,
                             readOften: bool)

  predicate CpuMapped(q: Request) { q.forceLinear || q.needsMapStride }

  function Need(linear: bool): set<Feature> {
    {Sampled, TransferSrc, TransferDst} + if linear then {} else {ColorAttachment}
  }

  // ---- the first filter ---------------------------------------------------------------------

  predicate Candidate(p: Listed, linear: bool, height: nat) {
    && p.modifier != INVALID && (p.modifier == LINEAR <==> linear) && p.planes == 1
    && Need(linear) <= p.features && Fits(p.modifier, height)
  }

  function Candidates(ps: seq<Listed>, linear: bool, height: nat): (r: seq<Listed>)
    ensures |r| <= |ps|
    ensures forall i :: 0 <= i < |r| ==> Candidate(r[i], linear, height)
  {
    if ps == [] then []
    else
      var n := |ps| - 1;
      Candidates(ps[..n], linear, height) + if Candidate(ps[n], linear, height) then [ps[n]] else []
  }

  /** What makes a listed modifier a candidate, spelled out. */
  predicate Suits(p: Listed, linear: bool, height: nat) {
    && p.modifier != 0xff_ffff_ffff_ffff && (p.modifier == 0 <==> linear) && p.planes == 1
    && Sampled in p.features && TransferSrc in p.features && TransferDst in p.features
    && (linear || ColorAttachment in p.features) && BlocksFit(p.modifier, height)
  }

  lemma CandidateMeans(p: Listed, linear: bool, height: nat)
    ensures Candidate(p, linear, height) <==> Suits(p, linear, height)
  {
    FitsMeans(p.modifier, height);
  }

  lemma {:induction false} CandidatesExact(ps: seq<Listed>, linear: bool, height: nat, p: Listed)
    ensures p in Candidates(ps, linear, height) <==> p in ps && Candidate(p, linear, height)
    ensures p in Candidates(ps, linear, height) <==> p in ps && Suits(p, linear, height)
  {
    CandidateMeans(p, linear, height);
    if ps != [] {
      var n := |ps| - 1;
      CandidatesExact(ps[..n], linear, height, p);
      assert p in ps <==> p in ps[..n] || p == ps[n];
    }
  }

  function Codes(ps: seq<Listed>): (ms: seq<nat>)
    ensures |ms| == |ps| && forall i :: 0 <= i < |ps| ==> ms[i] == ps[i].modifier
  {
    seq(|ps|, i requires 0 <= i < |ps| => ps[i].modifier)
  }

  predicate AllHave(ps: seq<Listed>, f: Feature) {
    forall i :: 0 <= i < |ps| ==> f in ps[i].features
  }

  lemma AllHaveOneMore(ps: seq<Listed>, p: Listed, f: Feature)
    ensures AllHave(ps + [p], f) <==> AllHave(ps, f) && f in p.features
  {
    assert forall i :: 0 <= i < |ps| ==> (ps + [p])[i] == ps[i];
    assert (ps + [p])[|ps|] == p;
  }

  method IsCandidate(p: Listed, linear: bool, height: nat) returns (b: bool)
    ensures b <==> Candidate(p, linear, height)
  {
    if p.modifier == INVALID || (p.modifier == LINEAR) != linear || p.planes != 1 || !(Need(linear) <= p.features) {
      return false;
    }
    b := ModifierFitsHeight(p.modifier, height);
  }

  lemma CandidatesStep(ps: seq<Listed>, i: nat, linear: bool, height: nat)
    requires i < |ps|
    ensures Candidates(ps[..i + 1], linear, height) ==
      Candidates(ps[..i], linear, height) + if Candidate(ps[i], linear, height) then [ps[i]] else []
  {
    assert ps[..i + 1][..i] == ps[..i];
  }

  /** Fills `mods` with the candidates' modifiers, and finds which optional features all of them have. */
  method FirstFilter(ps: seq<Listed>, linear: bool, height: nat, mods: array<nat>)
    returns (n: nat, storage: bool, color: bool)
    requires |ps| <= mods.Length
    modifies mods
    ensures n <= mods.Length && mods[..n] == Codes(Candidates(ps, linear, height))
    ensures storage <==> AllHave(Candidates(ps, linear, height), Storage)
    ensures color <==> AllHave(Candidates(ps, linear, height), ColorAttachment)
  {
    n, storage, color := 0, true, true;
    ghost var cs: seq<Listed> := [];
    for i := 0 to |ps|
      invariant cs == Candidates(ps[..i], linear, height) && n <= i && mods[..n] == Codes(cs)
      invariant storage <==> AllHave(cs, Storage)
      invariant color <==> AllHave(cs, ColorAttachment)
    {
      var p := ps[i];
      CandidatesStep(ps, i, linear, height);
      var take := IsCandidate(p, linear, height);
      if !take { continue; }
      AllHaveOneMore(cs, p, Storage);
      AllHaveOneMore(cs, p, ColorAttachment);
      storage := storage && Storage in p.features;
      color := color && ColorAttachment in p.features;
      mods[n] := p.modifier;
      n := n + 1;
      cs := cs + [p];
    }
    assert ps[..|ps|] == ps;
  }

  // ---- the second filter, in place ------------------------------------------------------------

  predicate Accepted(a: Answer, width: nat, height: nat) {
    a.ok && a.exportable && width <= a.maxWidth && height <= a.maxHeight
  }

  /** The modifiers the image query accepts, in their order. */
  function Kept(ms: seq<nat>, query: nat -> Answer, width: nat, height: nat): (r: seq<nat>)
    ensures |r| <= |ms|
  {
    if ms == [] then []
    else
      var n := |ms| - 1;
      Kept(ms[..n], query, width, height) + if Accepted(query(ms[n]), width, height) then [ms[n]] else []
  }

  /** `at` are the accepted positions of ms, in increasing order, and r what stands there. */
  ghost predicate Sublist(at: seq<nat>, r: seq<nat>, ms: seq<nat>, query: nat -> Answer, width: nat, height: nat) {
    && |at| == |r| && (forall k :: 0 <= k < |at| ==> at[k] < |ms| && r[k] == ms[at[k]])
    && (forall k, l :: 0 <= k < l < |at| ==> at[k] < at[l])
    && forall i :: 0 <= i < |ms| ==> (i in at <==>
         && query(ms[i]).ok && query(ms[i]).exportable
         && width <= query(ms[i]).maxWidth && height <= query(ms[i]).maxHeight)
  }

  lemma SublistGrows(at: seq<nat>, r: seq<nat>, ms: seq<nat>, m: nat, query: nat -> Answer, width: nat, height: nat)
    requires Sublist(at, r, ms, query, width, height)
    ensures if Accepted(query(m), width, height) then Sublist(at + [|ms|], r + [m], ms + [m], query, width, height)
      else Sublist(at, r, ms + [m], query, width, height)
  {
    assert forall i :: 0 <= i < |ms| ==> (ms + [m])[i] == ms[i];
    assert (ms + [m])[|ms|] == m;
    assert |ms| !in at;
  }

  /** What is kept is the sublist at the accepted positions. */
  lemma {:induction false} KeptSublist(ms: seq<nat>, query: nat -> Answer, width: nat, height: nat)
    returns (at: seq<nat>)
    ensures Sublist(at, Kept(ms, query, width, height), ms, query, width, height)
  {
    at := [];
    if ms != [] {
      var n := |ms| - 1;
      at := KeptSublist(ms[..n], query, width, height);
      SublistGrows(at, Kept(ms[..n], query, width, height), ms[..n], ms[n], query, width, height);
      assert ms[..n] + [ms[n]] == ms;
      if Accepted(query(ms[n]), width, height) { at := at + [n]; }
    }
  }

  lemma KeptStep(ms: seq<nat>, i: nat, query: nat -> Answer, width: nat, height: nat)
    requires i < |ms|
    ensures Kept(ms[..i + 1], query, width, height) ==
      Kept(ms[..i], query, width, height) + if Accepted(query(ms[i]), width, height) then [ms[i]] else []
  {
    assert ms[..i + 1][..i] == ms[..i];
  }

  method SecondFilter(mods: array<nat>, n: nat, query: nat -> Answer, width: nat, height: nat) returns (m: nat)
    requires n <= mods.Length
    modifies mods
    ensures m <= n && mods[..m] == Kept(old(mods[..n]), query, width, height)
  {
    m := 0;
    ghost var ms := mods[..n];
    for i := 0 to n
      invariant m <= i && mods[..m] == Kept(ms[..i], query, width, height)
      invariant forall j :: i <= j < n ==> mods[j] == ms[j]
    {
      KeptStep(ms, i, query, width, height);
      if !Accepted(query(mods[i]), width, height) { continue; }
      mods[m] := mods[i];
      m := m + 1;
    }
    assert ms[..n] == ms;
  }

  // ---- memory -----------------------------------------------------------------------------------

  const DeviceLocal := (t: MemoryType) => t.deviceLocal
  const CoherentHost := (t: MemoryType) => t.hostVisible && t.hostCoherent
  const CachedCoherentHost := (t: MemoryType) => t.hostVisible && t.hostCoherent && t.hostCached

  /** Host memory for a LINEAR buffer: coherent, and cached if the CPU reads it often. */
  predicate HostFit(t: MemoryType, readOften: bool) { t.hostVisible && t.hostCoherent && (readOften ==> t.hostCached) }

  predicate SomeHostFit(types: seq<MemoryType>, bits: set<nat>, readOften: bool) {
    exists j :: 0 <= j < |types| && j in bits && HostFit(types[j], readOften)
  }

  predicate SomeLocal(types: seq<MemoryType>, bits: set<nat>) {
    exists j :: 0 <= j < |types| && j in bits && types[j].deviceLocal
  }

  predicate Placeable(types: seq<MemoryType>, bits: set<nat>, linear: bool, readOften: bool) {
    (linear && SomeHostFit(types, bits, readOften)) || (!(linear && readOften) && SomeLocal(types, bits))
  }

  /** The first allowed type that fits: host memory for a LINEAR buffer if there is any, device memory otherwise. */
  predicate IsPlaced(types: seq<MemoryType>, bits: set<nat>, linear: bool, readOften: bool, i: nat) {
    && i < |types| && i in bits
    && if linear && SomeHostFit(types, bits, readOften)
       then HostFit(types[i], readOften) && forall j :: 0 <= j < i && j in bits ==> !HostFit(types[j], readOften)
       else (&& !(linear && readOften) && types[i].deviceLocal
             && forall j :: 0 <= j < i && j in bits ==> !types[j].deviceLocal)
  }

  /** A LINEAR buffer goes to coherent host memory if there is any; one the CPU reads often goes to
      cached coherent host memory or nowhere; everything else to device memory. */
  method PickMemory(types: seq<MemoryType>, bits: set<nat>, linear: bool, readOften: bool) returns (r: Option<nat>)
    ensures linear && readOften ==> IsFirst(types, bits, CachedCoherentHost, r)
    ensures linear && !readOften ==>
      if r.Some? && IsFirst(types, bits, CoherentHost, r) then true
      else IsFirst(types, bits, CoherentHost, None) && IsFirst(types, bits, DeviceLocal, r)
    ensures !linear ==> IsFirst(types, bits, DeviceLocal, r)
    ensures r.Some? <==> Placeable(types, bits, linear, readOften)
    ensures r.Some? ==> IsPlaced(types, bits, linear, readOften, r.value)
  {
    var often := linear && readOften;
    var host := if often then CachedCoherentHost else CoherentHost;
    var pass, passes := if linear then 0 else 1, if often then 1 else 2;
    r := None;
    while pass < passes && r.None?
      invariant pass <= 2 && (linear || pass > 0)
      invariant pass == 0 ==> r.None?
      invariant !linear && pass == 1 ==> r.None?
      invariant linear && pass == 1 ==> IsFirst(types, bits, host, r)
      invariant pass == 2 ==> (linear ==> IsFirst(types, bits, host, None)) && IsFirst(types, bits, DeviceLocal, r)
      invariant pass <= passes
    {
      r := FindFirst(types, bits, if pass == 0 then host else DeviceLocal);
      pass := pass + 1;
    }
  }

  // ---- the choice of modifiers ------------------------------------------------------------------

  function Usage(color: bool, storage: bool): set<Feature> {
    {Sampled, TransferSrc, TransferDst} + (if color then {ColorAttachment} else {}) + if storage then {Storage} else {}
  }

  /** Without a block-linear candidate, the source-built driver may fall back to a LINEAR modifier that
      meets the same needs. */
  predicate Fallback(p: Listed) {
    p.modifier == LINEAR && p.planes == 1 && Need(false) <= p.features
  }

  /** What the device lists for the first filter's purpose: the list is cut at its capacity. */
  function Cut(ps: seq<Listed>): seq<Listed> { if |ps| > MAX_MODS then ps[..MAX_MODS] else ps }

  datatype Choice = Choice(linear: bool, usage: set<Feature>, listed: seq<Listed>)

  /** A sound choice: every modifier is one the device lists, has the wanted layout, meets the
      needs, and supports every usage bit the image will be created with. */
  predicate SoundChoice(c: Choice, ps: seq<Listed>, q: Request, sourceRm: bool) {
    && c.listed != [] && {Sampled, TransferSrc, TransferDst} <= c.usage
    && (forall i :: 0 <= i < |c.listed| ==> c.usage <= c.listed[i].features)
    && if c.linear == q.forceLinear then c.listed == Candidates(Cut(ps), q.forceLinear, q.height)
       else sourceRm && c.linear && |c.listed| == 1 && Fallback(c.listed[0]) && c.listed[0] in ps
            && Candidates(Cut(ps), q.forceLinear, q.height) == []
  }

  function FirstFallback(ps: seq<Listed>): Option<Listed> {
    if ps == [] then None else if Fallback(ps[0]) then Some(ps[0]) else FirstFallback(ps[1..])
  }

  lemma {:induction false} FallbackFrom(ps: seq<Listed>, i: nat)
    requires i <= |ps| && forall j :: 0 <= j < i ==> !Fallback(ps[j])
    ensures FirstFallback(ps) == FirstFallback(ps[i..])
  {
    if i > 0 {
      FallbackFrom(ps[1..], i - 1);
      assert ps[1..][i - 1..] == ps[i..];
    } else {
      assert ps[0..] == ps;
    }
  }

  method FindFallback(ps: seq<Listed>) returns (r: Option<nat>)
    ensures r.Some? ==> r.value < |ps| && Fallback(ps[r.value]) && FirstFallback(ps) == Some(ps[r.value])
    ensures r.None? ==> FirstFallback(ps) == None && forall i :: 0 <= i < |ps| ==> !Fallback(ps[i])
  {
    for i := 0 to |ps|
      invariant forall j :: 0 <= j < i ==> !Fallback(ps[j])
    {
      FallbackFrom(ps, i);
      if ps[i].modifier == LINEAR && ps[i].planes == 1 && Need(false) <= ps[i].features { return Some(i); }
    }
    FallbackFrom(ps, |ps|);
    return None;
  }

  /** What the first filter and its fallback settle on. */
  ghost function ChoiceOf(ps: seq<Listed>, q: Request, sourceRm: bool): Option<Choice> {
    var cands := Candidates(Cut(ps), q.forceLinear, q.height);
    if cands != [] then
      Some(Choice(q.forceLinear, Usage(AllHave(cands, ColorAttachment), AllHave(cands, Storage)), cands))
    else if sourceRm && !q.forceLinear then
      match FirstFallback(Cut(ps))
      case Some(p) => Some(Choice(true, Usage(true, Storage in p.features), [p]))
      case None => None
    else None
  }

  lemma UsageSupported(cands: seq<Listed>, linear: bool, height: nat, storage: bool, color: bool, i: nat)
    requires i < |cands| && Candidate(cands[i], linear, height)
    requires storage ==> AllHave(cands, Storage)
    requires color ==> AllHave(cands, ColorAttachment)
    ensures Usage(color, storage) <= cands[i].features
  {}

  /** The first filter with the fallback; fails exactly when neither finds a modifier. */
  method ChooseModifiers(ps: seq<Listed>, q: Request, sourceRm: bool, mods: array<nat>)
    returns (n: nat, usage: set<Feature>, linear: bool, ghost c: Choice)
    requires mods.Length == MAX_MODS
    modifies mods
    ensures n <= mods.Length && c.linear == linear && c.usage == usage && mods[..n] == Codes(c.listed)
    ensures n > 0 ==> SoundChoice(c, ps, q, sourceRm)
    ensures (if n > 0 then Some(c) else None) == ChoiceOf(ps, q, sourceRm)
    ensures n == 0 <==>
      && Candidates(Cut(ps), q.forceLinear, q.height) == []
      && (sourceRm && !q.forceLinear ==> forall i :: 0 <= i < |Cut(ps)| ==> !Fallback(Cut(ps)[i]))
  {
    linear := q.forceLinear;
    var cut := Cut(ps);
    var storage, color;
    n, storage, color := FirstFilter(cut, linear, q.height, mods);
    usage := Usage(color, storage);
    ghost var cands := Candidates(cut, q.forceLinear, q.height);
    c := Choice(linear, usage, cands);
    forall i | 0 <= i < |cands| ensures usage <= cands[i].features {
      UsageSupported(cands, linear, q.height, storage, color, i);
    }
    if n == 0 && sourceRm && !linear {
      var found := FindFallback(cut);
      if found.Some? {
        var p := cut[found.value];
        mods[0], n, linear := LINEAR, 1, true;
        usage := Usage(true, Storage in p.features);
        c := Choice(true, usage, [p]);
        assert p in ps;
        assert mods[..1] == [LINEAR] == Codes([p]);
      }
    }
  }

  // ---- the allocation ------------------------------------------------------------------------------

  /** What the caller gets, and what the image was created with. */
  datatype Buffer = Buffer(stride: nat, modifier: nat, mapStride: nat, usage: set<Feature>, mods: seq<nat>,
                           memtype: nat)

  datatype Result = Allocated(b: Buffer) | Refused(e: T.Errno)

  /** The image query for images of this usage. */
  function Ask(query: (nat, set<Feature>) -> Answer, usage: set<Feature>): nat -> Answer { (x: nat) => query(x, usage) }

  /** The modifiers that passed both filters. */
  ghost predicate Selected(c: Choice, mods: seq<nat>, ps: seq<Listed>, query: (nat, set<Feature>) -> Answer, q: Request,
                           sourceRm: bool) {
    SoundChoice(c, ps, q, sourceRm) && mods == Kept(Codes(c.listed), Ask(query, c.usage), q.width, q.height)
  }

  /** The same, as a function. */
  ghost function ModsOf(ps: seq<Listed>, query: (nat, set<Feature>) -> Answer, q: Request, sourceRm: bool): seq<nat> {
    match ChoiceOf(ps, q, sourceRm)
    case None => []
    case Some(c) => Kept(Codes(c.listed), Ask(query, c.usage), q.width, q.height)
  }

  method Select(q: Request, sourceRm: bool, ps: seq<Listed>, query: (nat, set<Feature>) -> Answer)
    returns (mods: seq<nat>, usage: set<Feature>, linear: bool, ghost c: Choice)
    ensures c.usage == usage && c.linear == linear
    ensures mods != [] ==> Selected(c, mods, ps, query, q, sourceRm)
    ensures mods == ModsOf(ps, query, q, sourceRm) && (mods != [] ==> ChoiceOf(ps, q, sourceRm) == Some(c))
  {
    var a := new nat[MAX_MODS];
    var n;
    n, usage, linear, c := ChooseModifiers(ps, q, sourceRm, a);
    if n == 0 { return [], usage, linear, c; }
    var m := SecondFilter(a, n, Ask(query, usage), q.width, q.height);
    mods := a[..m];
  }

  /** Everything that holds of a buffer handed out. */
  ghost predicate Sound(b: Buffer, ps: seq<Listed>, query: (nat, set<Feature>) -> Answer, q: Request, sourceRm: bool) {
    exists c: Choice ::
      && Selected(c, b.mods, ps, query, q, sourceRm) && b.usage == c.usage && b.modifier in b.mods
      && b.mapStride == (if !c.linear && CpuMapped(q) then b.stride else 0)
  }

  lemma LayoutPassesGuard(q: Request, rowPitch: nat)
    requires UsableLayout(q, 0, rowPitch) && CpuMapped(q)
    ensures var g := Geo(q.width, q.height, q.bpp, rowPitch);
      T.LockGuard(g) && Mappable(g) && g.width * g.bpp < U32
  {}

  /** The plane-0 layout the driver reports must be one minigbm and a CPU lock can describe. */
  predicate UsableLayout(q: Request, offset: nat, rowPitch: nat) {
    && offset == 0 && rowPitch != 0 && rowPitch < U32
    && (CpuMapped(q) ==> q.bpp > 0 && rowPitch % q.bpp == 0 && q.width * q.bpp <= rowPitch)
  }

  /** The handles of one allocation: gone at the end, whatever failed. */
  method Cleanup(d: Driver, o: nat, image: bool, memory: bool)
    requires image == ((o, ImageObject) in d.live) && memory == ((o, ImageMemory) in d.live)
    requires d.cb == Pending && !d.hung ==> o != d.job.owner
    modifies d`live
    ensures d.live == old(d.live) - {(o, ImageObject), (o, ImageMemory)}
  {
    if image { d.Destroy(o, ImageObject); }
    if memory { d.Destroy(o, ImageMemory); }
  }

  /** What the driver tells of the image it created: its memory types, which of the listed modifiers it has, and where
      its plane lies. */
  datatype Report = Report(bits: set<nat>, pick: nat, offset: nat, rowPitch: nat)

  /** Image, memory, layout and export. The driver creates the image with one of the listed modifiers. While no call
      fails, it succeeds exactly if there is memory for it and its layout can be used. */
  method Build(d: Driver, o: nat, q: Request, linear: bool, types: seq<MemoryType>, mods: seq<nat>, rep: Report)
    returns (r: Option<(nat, nat, nat)>, e: T.Errno, image: bool, memory: bool)
    requires mods != [] && q.bpp > 0 && forall k :: (o, k) !in d.live
    modifies d`live, d.calls
    ensures old(d.calls.failed) <= d.calls.failed
    ensures r.Some? <==>
      && d.calls.failed == old(d.calls.failed) && Placeable(types, rep.bits, linear, q.readOften)
      && UsableLayout(q, rep.offset, rep.rowPitch)
    ensures r.Some? ==>
      && r.value.0 == rep.rowPitch && r.value.1 == mods[rep.pick % |mods|]
      && IsPlaced(types, rep.bits, linear, q.readOften, r.value.2)
    ensures r.None? && d.calls.failed == old(d.calls.failed) ==> e == T.EINVAL
    ensures image == ((o, ImageObject) in d.live) && memory == ((o, ImageMemory) in d.live)
    ensures (o, BoDescriptor) in d.live <==> r.Some?
    ensures d.live - {(o, ImageObject), (o, ImageMemory), (o, BoDescriptor)} == old(d.live)
  {
    r, e, memory := None, T.EINVAL, false;
    image := d.Create(o, ImageObject);
    if !image {
      var memoryShort: bool := *;
      if memoryShort { e := T.ENOMEM; }
      return;
    }
    var memtype := PickMemory(types, rep.bits, linear, q.readOften);
    if memtype.None? { return; }
    memory := d.Create(o, ImageMemory);
    if !memory { e := T.ENOMEM; return; }
    var ok := d.Ask();            // vkBindImageMemory
    if ok { ok := d.Ask(); }      // vkGetImageDrmFormatModifierPropertiesEXT
    if !ok { return; }
    var chosen := mods[rep.pick % |mods|];
    if rep.offset != 0 || rep.rowPitch == 0 || rep.rowPitch >= U32
       || (CpuMapped(q) && (rep.rowPitch % q.bpp != 0 || rep.rowPitch < q.width * q.bpp)) {
      return;
    }
    var fd := d.Create(o, BoDescriptor);
    if !fd { return; }
    r := Some((rep.rowPitch, chosen, memtype.value));
  }

  /** A modifier the image was created with: the device lists it, with one plane and every requested usage, the image's
      height takes its blocks, and the image query accepts it. */
  ghost predicate GoodModifier(m: nat, ps: seq<Listed>, query: (nat, set<Feature>) -> Answer, q: Request,
                               usage: set<Feature>) {
    && query(m, usage).ok && query(m, usage).exportable
    && q.width <= query(m, usage).maxWidth && q.height <= query(m, usage).maxHeight
    && m != 0xff_ffff_ffff_ffff && BlocksFit(m, q.height)
    && exists p :: p in ps && p.modifier == m && p.planes == 1 && usage <= p.features
  }

  /** The device's list as far as it is looked at. */
  function Seen(ps: seq<Listed>): seq<Listed> { ps[..if |ps| > 64 then 64 else |ps|] }

  predicate SomeSuits(ps: seq<Listed>, q: Request) {
    exists i :: 0 <= i < |Seen(ps)| && Suits(Seen(ps)[i], q.forceLinear, q.height)
  }

  ghost predicate SeenAs(m: nat, ps: seq<Listed>, q: Request) {
    exists i :: 0 <= i < |Seen(ps)| && Suits(Seen(ps)[i], q.forceLinear, q.height) && Seen(ps)[i].modifier == m
  }

  predicate Granted(a: Answer, width: nat, height: nat) {
    a.ok && a.exportable && width <= a.maxWidth && height <= a.maxHeight
  }

  ghost predicate AllSuitingHave(ps: seq<Listed>, q: Request, f: Feature) {
    forall i :: 0 <= i < |Seen(ps)| && Suits(Seen(ps)[i], q.forceLinear, q.height) ==> f in Seen(ps)[i].features
  }

  /** The image may have every suitable modifier the image query accepts, and the usages all suitable ones have;
      without a suitable one, the source-built driver takes a LINEAR image. */
  ghost predicate Complete(b: Buffer, ps: seq<Listed>, query: (nat, set<Feature>) -> Answer, q: Request,
                           sourceRm: bool) {
    if SomeSuits(ps, q) then
      && (forall m :: m in b.mods <==> SeenAs(m, ps, q) && Granted(query(m, b.usage), q.width, q.height))
      && (ColorAttachment in b.usage <==> AllSuitingHave(ps, q, ColorAttachment))
      && (Storage in b.usage <==> AllSuitingHave(ps, q, Storage))
    else sourceRm && !q.forceLinear && b.mods == [0] && ColorAttachment in b.usage
  }

  lemma CandidatesSeen(ps: seq<Listed>, q: Request)
    ensures var cands := Candidates(Cut(ps), q.forceLinear, q.height);
      && (cands != [] <==> SomeSuits(ps, q))
      && (forall m :: SeenAs(m, ps, q) <==> m in Codes(cands))
      && forall f :: AllSuitingHave(ps, q, f) <==> AllHave(cands, f)
  {
    var cands, seen := Candidates(Cut(ps), q.forceLinear, q.height), Seen(ps);
    assert Cut(ps) == seen;
    forall p ensures p in cands <==> p in seen && Suits(p, q.forceLinear, q.height) {
      CandidatesExact(seen, q.forceLinear, q.height, p);
    }
    forall i | 0 <= i < |seen| && Suits(seen[i], q.forceLinear, q.height) ensures seen[i] in cands {}
    if cands != [] {
      assert cands[0] in cands;
      var i :| 0 <= i < |seen| && seen[i] == cands[0];
    }
    forall i | 0 <= i < |cands| ensures cands[i] in cands && cands[i] in seen {}
    forall m ensures SeenAs(m, ps, q) <==> m in Codes(cands) { SeenIsCode(m, ps, q, cands); }
  }

  lemma SeenIsCode(m: nat, ps: seq<Listed>, q: Request, cands: seq<Listed>)
    requires forall p :: p in cands <==> p in Seen(ps) && Suits(p, q.forceLinear, q.height)
    ensures SeenAs(m, ps, q) <==> m in Codes(cands)
  {
    var seen := Seen(ps);
    if SeenAs(m, ps, q) {
      var i :| 0 <= i < |seen| && Suits(seen[i], q.forceLinear, q.height) && seen[i].modifier == m;
      var k :| 0 <= k < |cands| && cands[k] == seen[i];
      assert Codes(cands)[k] == m;
    }
    if m in Codes(cands) {
      var k :| 0 <= k < |cands| && Codes(cands)[k] == m;
      assert cands[k] in cands;
      var i :| 0 <= i < |seen| && seen[i] == cands[k];
    }
  }

  lemma KeptHas(ms: seq<nat>, query: nat -> Answer, width: nat, height: nat, m: nat)
    ensures m in Kept(ms, query, width, height) <==> m in ms && Granted(query(m), width, height)
  {
    var at := KeptSublist(ms, query, width, height);
    var kept := Kept(ms, query, width, height);
    if m in kept {
      var k :| 0 <= k < |kept| && kept[k] == m;
      assert at[k] in at;
    }
    if m in ms && Granted(query(m), width, height) {
      var i :| 0 <= i < |ms| && ms[i] == m;
      assert i in at;
      var k :| 0 <= k < |at| && at[k] == i;
      assert kept[k] == m;
    }
  }

  lemma IsComplete(b: Buffer, c: Choice, ps: seq<Listed>, query: (nat, set<Feature>) -> Answer, q: Request,
                   sourceRm: bool)
    requires ChoiceOf(ps, q, sourceRm) == Some(c) && b.usage == c.usage && b.mods != []
    requires b.mods == Kept(Codes(c.listed), Ask(query, c.usage), q.width, q.height)
    ensures Complete(b, ps, query, q, sourceRm)
  {
    CandidatesSeen(ps, q);
    forall m ensures m in b.mods <==> m in Codes(c.listed) && Granted(query(m, b.usage), q.width, q.height) {
      KeptHas(Codes(c.listed), Ask(query, c.usage), q.width, q.height, m);
    }
    if !SomeSuits(ps, q) {
      FallbackIs(Cut(ps));
      assert b.mods[0] in b.mods && |b.mods| <= 1;
    }
  }

  lemma {:induction false} FallbackIs(ps: seq<Listed>)
    ensures FirstFallback(ps).Some? ==> Fallback(FirstFallback(ps).value)
  {
    if ps != [] { FallbackIs(ps[1..]); }
  }

  /** All that a caller may rely on of a buffer. */
  ghost predicate HandedOut(b: Buffer, ps: seq<Listed>, query: (nat, set<Feature>) -> Answer, q: Request,
                            sourceRm: bool, types: seq<MemoryType>, rep: Report) {
    && b.stride == rep.rowPitch && rep.offset == 0 && 0 < rep.rowPitch < 0x1_0000_0000
    && (q.forceLinear || q.needsMapStride ==> q.bpp > 0 && rep.rowPitch % q.bpp == 0 && q.width * q.bpp <= rep.rowPitch)
    && b.modifier in b.mods && (forall m :: m in b.mods ==> GoodModifier(m, ps, query, q, b.usage))
    && {Sampled, TransferSrc, TransferDst} <= b.usage && (!q.forceLinear ==> ColorAttachment in b.usage)
    && (q.forceLinear ==> forall m :: m in b.mods ==> m == 0)
    && (!q.forceLinear && !sourceRm ==> forall m :: m in b.mods ==> m != 0)
    && (forall m, m' :: m in b.mods && m' in b.mods ==> (m == 0 <==> m' == 0))
    && b.mapStride == (if b.modifier != 0 && (q.forceLinear || q.needsMapStride) then b.stride else 0)
    && IsPlaced(types, rep.bits, b.modifier == 0, q.readOften, b.memtype)
    && Complete(b, ps, query, q, sourceRm)
  }

  lemma SelectedGood(c: Choice, mods: seq<nat>, ps: seq<Listed>, query: (nat, set<Feature>) -> Answer, q: Request,
                     sourceRm: bool, m: nat)
    requires Selected(c, mods, ps, query, q, sourceRm) && m in mods
    ensures GoodModifier(m, ps, query, q, c.usage) && (m == 0 <==> c.linear)
    ensures q.forceLinear ==> c.linear
    ensures !q.forceLinear && !sourceRm ==> !c.linear
  {
    var at := KeptSublist(Codes(c.listed), Ask(query, c.usage), q.width, q.height);
    var k :| 0 <= k < |mods| && mods[k] == m;
    assert at[k] in at && Codes(c.listed)[at[k]] == m;
    var p := c.listed[at[k]];
    assert p.modifier == m && c.usage <= p.features;
    FitsMeans(m, q.height);
    if c.linear == q.forceLinear { CandidatesExact(Cut(ps), q.forceLinear, q.height, p); }
  }

  lemma ChoiceColor(ps: seq<Listed>, q: Request, sourceRm: bool)
    ensures var c := ChoiceOf(ps, q, sourceRm); c.Some? && !q.forceLinear ==> ColorAttachment in c.value.usage
  {}

  /** nvg_alloc: a buffer it hands out was created with the modifiers that passed both filters, is used
      only as all of them allow, and, if the CPU may map it, passes the lock's guard on import; of the
      handles only the exported descriptor stays, and none if it fails. While no call fails it succeeds exactly if the
      format and extent are real, a modifier passes, there is memory, and the driver's layout can be used. */
  method Alloc(d: Driver, o: nat, q: Request, sourceRm: bool, ps: seq<Listed>, query: (nat, set<Feature>) -> Answer,
               types: seq<MemoryType>, rep: Report) returns (r: Result)
    requires forall k :: (o, k) !in d.live
    requires d.cb == Pending && !d.hung ==> o != d.job.owner
    modifies d`live, d.calls
    ensures r.Allocated? ==> d.live == old(d.live) + {(o, BoDescriptor)} && Sound(r.b, ps, query, q, sourceRm)
    ensures r.Allocated? ==> HandedOut(r.b, ps, query, q, sourceRm, types, rep)
    ensures r.Allocated? && CpuMapped(q) ==>
      var g := Geo(q.width, q.height, q.bpp, r.b.stride);
      T.LockGuard(g) && Mappable(g) && g.width * g.bpp < U32 && 0 < g.width && 0 < g.height
    ensures r.Refused? ==> d.live == old(d.live)
    ensures r.Refused? && d.calls.failed == old(d.calls.failed) ==> r.e == T.EINVAL
    ensures q.bpp == 0 || q.width == 0 || q.height == 0 ==> r == Refused(T.EINVAL)
    ensures old(d.calls.failed) <= d.calls.failed
    ensures r.Allocated? <==>
      d.calls.failed == old(d.calls.failed) && Possible(ps, query, q, sourceRm, types, rep)
  {
    if q.bpp == 0 || q.width == 0 || q.height == 0 { return Refused(T.EINVAL); }
    var up := d.Ask();            // the device
    if !up { return Refused(T.ENODEV); }
    var mods, usage, linear;
    ghost var c;
    mods, usage, linear, c := Select(q, sourceRm, ps, query);
    if mods == [] { return Refused(T.EINVAL); }
    var built, e := Place(d, o, q, linear, types, mods, rep);
    if built.None? { return Refused(e); }
    var (stride, modifier, memtype) := built.value;
    if CpuMapped(q) { LayoutPassesGuard(q, stride); }
    r := Allocated(Buffer(stride, modifier, if !linear && CpuMapped(q) then stride else 0, usage, mods, memtype));
    IsHandedOut(r.b, c, ps, query, q, sourceRm, types, rep);
  }

  /** What an allocation needs besides calls that do not fail. */
  ghost predicate Possible(ps: seq<Listed>, query: (nat, set<Feature>) -> Answer, q: Request, sourceRm: bool,
                           types: seq<MemoryType>, rep: Report) {
    && q.bpp != 0 && q.width != 0 && q.height != 0 && ModsOf(ps, query, q, sourceRm) != []
    && Placeable(types, rep.bits, ChoiceOf(ps, q, sourceRm).value.linear, q.readOften)
    && UsableLayout(q, rep.offset, rep.rowPitch)
  }

  /** Build, and the transient handles gone again. */
  method Place(d: Driver, o: nat, q: Request, linear: bool, types: seq<MemoryType>, mods: seq<nat>, rep: Report)
    returns (r: Option<(nat, nat, nat)>, e: T.Errno)
    requires mods != [] && q.bpp > 0 && forall k :: (o, k) !in d.live
    requires d.cb == Pending && !d.hung ==> o != d.job.owner
    modifies d`live, d.calls
    ensures old(d.calls.failed) <= d.calls.failed
    ensures r.Some? <==>
      && d.calls.failed == old(d.calls.failed) && Placeable(types, rep.bits, linear, q.readOften)
      && UsableLayout(q, rep.offset, rep.rowPitch)
    ensures r.Some? ==>
      && r.value.0 == rep.rowPitch && r.value.1 in mods && IsPlaced(types, rep.bits, linear, q.readOften, r.value.2)
    ensures r.None? && d.calls.failed == old(d.calls.failed) ==> e == T.EINVAL
    ensures d.live == old(d.live) + if r.Some? then {(o, BoDescriptor)} else {}
  {
    var image, memory;
    r, e, image, memory := Build(d, o, q, linear, types, mods, rep);
    Cleanup(d, o, image, memory);
  }

  lemma IsHandedOut(b: Buffer, c: Choice, ps: seq<Listed>, query: (nat, set<Feature>) -> Answer, q: Request,
                    sourceRm: bool, types: seq<MemoryType>, rep: Report)
    requires q.bpp > 0 && Selected(c, b.mods, ps, query, q, sourceRm) && ChoiceOf(ps, q, sourceRm) == Some(c)
    requires b.usage == c.usage && b.modifier in b.mods && b.stride == rep.rowPitch
    requires UsableLayout(q, rep.offset, rep.rowPitch)
    requires b.mapStride == (if !c.linear && CpuMapped(q) then b.stride else 0)
    requires IsPlaced(types, rep.bits, c.linear, q.readOften, b.memtype)
    ensures HandedOut(b, ps, query, q, sourceRm, types, rep)
  {
    ChoiceColor(ps, q, sourceRm);
    IsComplete(b, c, ps, query, q, sourceRm);
    forall m | m in b.mods
      ensures GoodModifier(m, ps, query, q, b.usage) && (m == 0 <==> c.linear)
      ensures (q.forceLinear ==> c.linear) && (!q.forceLinear && !sourceRm ==> !c.linear)
    {
      SelectedGood(c, b.mods, ps, query, q, sourceRm, m);
    }
  }
}
