/** CPU lock and unlock of block-linear buffers through a cached linear staging copy,
    and the proof that every call is a step of LinearBuffer, whatever the driver does. */
module TiledLock {
  import opened ModArith
  import opened PixelLayout
  import opened VulkanDriver
  import opened MemoryTypes
  import opened Options
  import L = LinearBuffer

  /** READ is 1, WRITE is 2. */
  predicate HasWrite(flags: nat) {
    flags / 2 % 2 == 1
  }

  datatype Errno = EINVAL | ENODEV | ENOMEM | EBUSY | EIO

  /** What a successful map hands out and unmap takes back. */
  datatype Mapping = Mapping(bo: nat, flags: nat)

  datatype MapResult = Mapped(m: Mapping) | Failed(errno: Errno)

  /** An imported buffer. bpp is 0 for a format outside the whitelist; img, imgMem, stg,
      stgMem and ptr say which of the cached handles are not null. */
  datatype Bo = Bo(dma: nat, geo: Geo, img: bool, imgMem: bool, stg: bool, stgMem: bool, ptr: bool,
                   coherent: bool, locked: bool)

  // ---- the lock's guard ---------------------------------------------------------

  /** The guard as written: the product is taken in 32 bits. */
  predicate LockGuard(g: Geo) {
    g.bpp > 0 && g.stride % g.bpp == 0 && g.width * g.bpp % U32 <= g.stride
  }

  lemma WholePixels(width: nat, bpp: nat)
    requires bpp in {1, 2, 4, 8}
    ensures width * bpp % U32 % bpp == 0
  {
    var c := if bpp == 1 then U32 else if bpp == 2 then U32 / 2 else if bpp == 4 then U32 / 4 else U32 / 8;
    PartOfWord(width, bpp, c);
  }

  lemma PartOfWord(width: nat, bpp: nat, c: nat)
    requires bpp > 0 && c * bpp == U32
    ensures width * bpp % U32 % bpp == 0
  {
    var row := width * bpp;
    var q := row / U32;
    assert row == q * U32 + row % U32;
    assert q * U32 == (q * c) * bpp;
    assert row % U32 == 0 + (width - q * c) * bpp;
    ModShift(0, width - q * c, bpp);
  }

  /** The guard means "a row fits" for every 32-bit stride exactly when the row itself
      is under 4 GiB. */
  lemma GuardExactly(width: nat, height: nat, bpp: nat)
    requires bpp in {1, 2, 4, 8}   // the whitelisted formats
    ensures (forall stride: nat :: stride < 0x1_0000_0000 ==>
               (LockGuard(Geo(width, height, bpp, stride)) <==> Mappable(Geo(width, height, bpp, stride))))
       <==> width * bpp < 0x1_0000_0000
  {
    var row := width * bpp;
    if row < U32 {
      forall stride: nat | stride < U32
        ensures LockGuard(Geo(width, height, bpp, stride)) <==> Mappable(Geo(width, height, bpp, stride))
      {
        assert row % U32 == row;
      }
    } else {
      var g := Geo(width, height, bpp, row % U32);
      WholePixels(width, bpp);
      assert LockGuard(g) && !Mappable(g);
    }
  }

  /** What a lock relies on: a geometry its guard lets through is the image's own, with rows under
      4 GiB. What the guard refuses may be anything. */
  predicate Imported(g: Geo, img: Image) {
    LockGuard(g) ==>
      && 0 < g.width && 0 < g.height
      && g.width * g.bpp < U32
      && IsImage(g, img)
  }

  lemma GuardPasses(g: Geo, img: Image)
    requires Imported(g, img)
    ensures LockGuard(g) <==> Mappable(g)
    ensures Mappable(g) ==> 0 < g.stride && 0 < g.width && 0 < g.height && IsImage(g, img)
  {
    if g.bpp > 0 {
      if g.width * g.bpp <= g.stride { GuardHolds(g.width * g.bpp, g.stride); }
      if g.width > 0 { MulMono(1, g.width, g.bpp); }
    }
  }

  lemma GuardHolds(row: nat, stride: nat)
    requires row <= stride
    ensures row % U32 <= stride
  {
    assert row % U32 == row - U32 * (row / U32);
  }

  // ---- the copies, in pixels -------------------------------------------------------

  predicate StagingOk(g: Geo, m: Memory, coherent: bool) {
    && Mappable(g) && 0 < g.stride
    && IsMemory(m, ViewSize(g), coherent)
    && (coherent ==> !m.unflushed)
  }

  function CopyJob(toStaging: bool, id: nat, b: Bo): Job
    requires b.geo.bpp > 0
  {
    Job(toStaging, id, b.dma, b.geo, b.geo.stride / b.geo.bpp)
  }

  lemma CopyAllowed(toStaging: bool, id: nat, b: Bo, img: Image, m: Memory)
    requires StagingOk(b.geo, m, b.coherent) && IsImage(b.geo, img)
    ensures CanCopy(CopyJob(toStaging, id, b), img, m)
  {
    var g := b.geo;
    var rl := g.stride / g.bpp;
    assert rl * g.bpp == g.stride;
    if g.width > rl { MulMono(rl + 1, g.width, g.bpp); }
    LockRegionFits(g);
  }

  lemma ReadBackPixels(id: nat, b: Bo, img: Image, m: Memory)
    requires StagingOk(b.geo, m, b.coherent) && IsImage(b.geo, img)
    ensures CanCopy(CopyJob(true, id, b), img, m)
    ensures var m' := ReadBack(CopyJob(true, id, b), img, m);
            && StagingOk(b.geo, m', b.coherent) && m'.unflushed == m.unflushed
            && PixelsOf(b.geo, m'.dev) == img
  {
    CopyAllowed(true, id, b, img, m);
    ReadBackShowsImage(b.geo, img, m.dev);
  }

  lemma WriteBackPixels(id: nat, b: Bo, img: Image, m: Memory)
    requires StagingOk(b.geo, m, b.coherent) && IsImage(b.geo, img)
    ensures CanCopy(CopyJob(false, id, b), img, m)
    ensures WrittenBack(CopyJob(false, id, b), img, m) == PixelsOf(b.geo, m.dev)
  {
    CopyAllowed(false, id, b, img, m);
    WriteBackStoresView(b.geo, m.dev);
  }

  // ---- ownership -----------------------------------------------------------------------

  /** A buffer's non-null handles are exactly its live objects. */
  predicate Owns(id: nat, b: Bo, live: set<(nat, Kind)>) {
    && id != 0
    && (id, BoDescriptor) in live && (id, DupDescriptor) !in live
    && (id, CommandPool) !in live && (id, CommandBufferObject) !in live && (id, FenceObject) !in live
    && (b.img <==> (id, ImageObject) in live)
    && (b.imgMem <==> (id, ImageMemory) in live)
    && (b.stg <==> (id, StagingBuffer) in live)
    && (b.stgMem <==> (id, StagingMemory) in live)
  }

  ghost predicate OnlyLive(before: set<(nat, Kind)>, after: set<(nat, Kind)>, id: nat) {
    forall j, k :: j != id ==> ((j, k) in after <==> (j, k) in before)
  }

  function Made(id: nat, kind: Kind, yes: bool): set<(nat, Kind)> {
    if yes then {(id, kind)} else {}
  }

  lemma OwnsImage(id: nat, b: Bo, live: set<(nat, Kind)>, img: bool, mem: bool)
    requires Owns(id, b, live) && !b.img && !b.imgMem
    ensures var live' := live + Made(id, ImageObject, img) + Made(id, ImageMemory, mem);
      Owns(id, b.(img := img, imgMem := mem), live') && OnlyLive(live, live', id)
  {}

  lemma OwnsStaging(id: nat, b: Bo, live: set<(nat, Kind)>, stg: bool, mem: bool, ptr: bool, coherent: bool)
    requires Owns(id, b, live) && !b.stg && !b.stgMem
    ensures var live' := live + Made(id, StagingBuffer, stg) + Made(id, StagingMemory, mem);
      && Owns(id, b.(stg := stg, stgMem := mem, ptr := ptr, coherent := coherent), live')
      && OnlyLive(live, live', id)
  {}

  ghost predicate Owned(bos: map<nat, Bo>, live: set<(nat, Kind)>) {
    && (forall id :: id in bos ==> Owns(id, bos[id], live))
    && (forall j, k :: (j, k) in live ==> j == 0 || j in bos)
  }

  ghost predicate OnlyBo(before: map<nat, Bo>, after: map<nat, Bo>, id: nat) {
    && id in before && after.Keys == before.Keys
    && forall j :: j in before && j != id ==> after[j] == before[j]
  }

  lemma OwnedStep(bos: map<nat, Bo>, live: set<(nat, Kind)>, bos': map<nat, Bo>, live': set<(nat, Kind)>, id: nat)
    requires Owned(bos, live) && OnlyBo(bos, bos', id) && OnlyLive(live, live', id) && Owns(id, bos'[id], live')
    ensures Owned(bos', live')
  {
    forall j | j in bos' ensures Owns(j, bos'[j], live') {
      assert Owns(j, bos[j], live);
    }
  }

  lemma OwnedLocked(bos: map<nat, Bo>, live: set<(nat, Kind)>, id: nat, locked: bool)
    requires Owned(bos, live) && id in bos
    ensures Owned(bos[id := bos[id].(locked := locked)], live)
  {
    assert Owns(id, bos[id], live);
    OwnedStep(bos, live, bos[id := bos[id].(locked := locked)], live, id);
  }

  lemma OwnedShared(bos: map<nat, Bo>, live: set<(nat, Kind)>, live': set<(nat, Kind)>)
    requires Owned(bos, live) && OnlyLive(live, live', 0)
    ensures Owned(bos, live')
  {
    forall id | id in bos ensures Owns(id, bos[id], live') {
      assert Owns(id, bos[id], live);
    }
  }

  // ---- the state the copies and the CPU see -----------------------------------------------

  datatype Snap = Snap(images: map<nat, Image>, memory: map<nat, Memory>, bos: map<nat, Bo>,
                       outstanding: map<nat, Mapping>, touched: set<nat>, failed: bool)

  /** Nothing is set up, or everything is; a locked buffer is set up and has its mapping. */
  predicate AllOrNone(b: Bo) {
    && b.imgMem == b.img && b.stg == b.img && b.stgMem == b.img && b.ptr == b.img
    && (b.locked ==> b.img)
  }

  ghost predicate BoOk(s: Snap, id: nat)
    requires id in s.bos
  {
    var b := s.bos[id];
    && b.dma in s.images && Imported(b.geo, s.images[b.dma])
    && AllOrNone(b)
    && (b.img ==> id in s.memory && StagingOk(b.geo, s.memory[id], b.coherent))
    && (b.locked <==> id in s.outstanding)
    && (b.locked ==> s.outstanding[id].bo == id)
  }

  ghost predicate Good(s: Snap) {
    && (forall id :: id in s.bos ==> BoOk(s, id))
    && (forall id :: id in s.outstanding || id in s.touched ==> id in s.bos && s.bos[id].locked)
  }

  ghost function AbsStaging(s: Snap, id: nat): L.Staging
    requires id in s.bos
  {
    var b := s.bos[id];
    if !b.img || id !in s.memory then L.NoStaging
    else if b.coherent then L.Coherent
    else L.NonCoherent(s.memory[id].unflushed)
  }

  ghost function AbsLock(s: Snap, id: nat): L.LockState
    requires id in s.bos
  {
    var b := s.bos[id];
    if b.locked && id in s.outstanding && id in s.memory && Mappable(b.geo) && |s.memory[id].host| == ViewSize(b.geo)
    then L.Locked(HasWrite(s.outstanding[id].flags), id in s.touched, PixelsOf(b.geo, s.memory[id].host))
    else L.Unlocked
  }

  ghost function AbsBuf(s: Snap, id: nat): L.Buf
    requires id in s.bos
  {
    L.Buf(s.bos[id].dma, s.bos[id].geo, AbsStaging(s, id), AbsLock(s, id))
  }

  /** The abstract state of LinearBuffer that a snapshot stands for. */
  ghost function Abs(s: Snap): L.State {
    L.State(s.images, map id | id in s.bos :: AbsBuf(s, id), s.failed)
  }

  /** Two snapshots that differ for one buffer only. */
  ghost predicate OnlyAt(s: Snap, s': Snap, id: nat) {
    && OnlyBo(s.bos, s'.bos, id)
    && OnlyMemory(s.memory, s'.memory, id)
    && s'.bos[id].dma == s.bos[id].dma && s'.bos[id].geo == s.bos[id].geo
    && (forall j :: j != id ==> (j in s'.outstanding <==> j in s.outstanding))
    && (forall j :: j != id && j in s.outstanding ==> s'.outstanding[j] == s.outstanding[j])
    && (forall j :: j != id ==> (j in s'.touched <==> j in s.touched))
  }

  lemma AbsOnlyAt(s: Snap, s': Snap, id: nat)
    requires Good(s) && OnlyAt(s, s', id)
    ensures L.OnlyBuf(Abs(s), Abs(s'), id)
  {
    forall j | j in s.bos && j != id ensures Abs(s').bufs[j] == Abs(s).bufs[j] {
      assert BoOk(s, j);
    }
  }

  lemma GoodOnlyAt(s: Snap, s': Snap, id: nat)
    requires Good(s) && OnlyAt(s, s', id) && BoOk(s', id) && s'.images == s.images
    requires id in s'.touched ==> s'.bos[id].locked
    ensures Good(s')
  {
    forall j | j in s'.bos ensures BoOk(s', j) {
      if j != id { assert BoOk(s, j); }
    }
  }

  lemma OnlyAtTrans(s: Snap, s': Snap, s'': Snap, id: nat)
    requires OnlyAt(s, s', id) && OnlyAt(s', s'', id)
    ensures OnlyAt(s, s'', id)
  {}

  lemma GoodNewImage(s: Snap, s': Snap, d: nat, img: Image)
    requires Good(s) && d in s.images && SameShape(s.images[d], img)
    requires s' == s.(images := s.images[d := img])
    ensures Good(s')
  {
    forall j | j in s'.bos ensures BoOk(s', j) {
      assert BoOk(s, j);
      if s.bos[j].dma == d && LockGuard(s.bos[j].geo) { ShapeKept(s.bos[j].geo, s.images[d], img); }
    }
  }

  lemma AbsNewImages(s: Snap, images: map<nat, Image>)
    ensures Abs(s.(images := images)) == Abs(s).(images := images)
  {
    var s' := s.(images := images);
    assert forall j :: j in s.bos ==> AbsBuf(s', j) == AbsBuf(s, j);
  }

  // ---- the backend ---------------------------------------------------------------------------

  /** The process-wide lock: not recursive. */
  class Mutex {
    var held: bool

    constructor ()
      ensures !held
    { held := false; }

    method Acquire()
      requires !held
      modifies this
      ensures held
    { held := true; }

    method Release()
      requires held
      modifies this
      ensures !held
    { held := false; }
  }

  /** The Vulkan device, opened on first use. */
  class Device {
    var state: int    // untouched at 0, usable at 1, given up at -1

    constructor ()
      ensures state == 0
    { state := 0; }

    method Get() returns (ok: bool)
      modifies this
      ensures ok <==> state >= 0
      ensures old(state) != 0 ==> state == old(state)
    {
      if state == 0 {
        var r: bool := *;   // vk_init_locked
        state := if r then 1 else -1;
      }
      return state >= 0;
    }
  }

  class Gralloc {
    const vk: Driver
    const types: seq<MemoryType>
    const device: Device
    var xferState: int    // the copy context, with the device's three values
    const xferLock: Mutex
    var bos: map<nat, Bo>
    var nextBo: nat
    var outstanding: map<nat, Mapping>        // locked buffer -> the mapping record its lock handed out
    ghost var touched: set<nat>               // locked buffers the CPU has stored to

    ghost function Now(): Snap
      reads this, vk
    {
      Snap(vk.images, vk.memory, bos, outstanding, touched, xferState < 0)
    }

    /** While the context has not failed no copy is pending and the fence can be used. */
    ghost predicate XferOk()
      reads this, vk
    {
      && -1 <= xferState <= 1
      && (xferState >= 0 ==> vk.cb != Pending && vk.fence == Unsignalled && !vk.hung)
      && (vk.cb == Pending ==> vk.hung)
      && (xferState == 1 ==> vk.SharedLive())
      && (xferState == 0 ==>
            (0, CommandPool) !in vk.live && (0, CommandBufferObject) !in vk.live && (0, FenceObject) !in vk.live)
      && (xferState == 0 ==> outstanding == map[])
    }

    ghost predicate Inv()
      reads this, vk
    {
      && XferOk()
      && Owned(bos, vk.live)
      && Good(Now())
      && 0 < nextBo && (forall id :: id in bos ==> id < nextBo)
    }

    ghost predicate Valid()
      reads this, vk, xferLock
    {
      Inv() && !xferLock.held
    }

    constructor (vk: Driver, types: seq<MemoryType>)
      requires vk.live == {} && vk.cb == Initial && vk.fence == Unsignalled && !vk.hung
      ensures Valid() && this.vk == vk && this.types == types && bos == map[] && fresh(xferLock) && fresh(device)
    {
      this.vk, this.types := vk, types;
      xferLock := new Mutex();
      device := new Device();
      xferState := 0;
      bos, nextBo, outstanding, touched := map[], 1, map[], {};
    }

    method MakeXfer() returns (ok: bool)
      requires (0, CommandPool) !in vk.live && (0, CommandBufferObject) !in vk.live && (0, FenceObject) !in vk.live
      modifies vk`live, vk.calls
      ensures OnlyLive(old(vk.live), vk.live, 0) && (ok ==> vk.SharedLive())
      ensures old(vk.calls.failed) <= vk.calls.failed && (ok <==> vk.calls.failed == old(vk.calls.failed))
    {
      ok := vk.Create(0, CommandPool);
      if ok { ok := vk.Create(0, CommandBufferObject); }
      if ok { ok := vk.Create(0, FenceObject); }
    }

    /** The shared command pool, command buffer and fence, made on first use. */
    method XferReady() returns (ok: bool)
      requires Inv()
      modifies `xferState, vk`live, vk.calls
      ensures Inv() && xferState != 0 && (ok <==> xferState == 1)
      ensures old(xferState) != 0 ==> xferState == old(xferState)
      ensures old(vk.calls.failed) <= vk.calls.failed
      ensures ok <==> old(xferState) >= 0 && vk.calls.failed == old(vk.calls.failed)
    {
      if xferState > 0 { return true; }
      if xferState < 0 { return false; }
      ok := MakeXfer();
      xferState := if ok then 1 else -1;
      OwnedShared(bos, old(vk.live), vk.live);
      GoodFailed(old(Now()), Now());
    }

    // ---- the per-buffer staging cache ----

    method ReleaseTiled(id: nat)
      requires id in bos && Owns(id, bos[id], vk.live) && (vk.cb == Pending ==> vk.hung)
      modifies `bos, vk`live
      ensures OnlyBo(old(bos), bos, id) && OnlyLive(old(vk.live), vk.live, id)
      ensures Owns(id, bos[id], vk.live)
      ensures bos[id] == old(bos[id]).(img := false, imgMem := false, stg := false, stgMem := false,
                                       ptr := false, locked := false)
    {
      if bos[id].stg { vk.Destroy(id, StagingBuffer); }
      if bos[id].stgMem { vk.Destroy(id, StagingMemory); }
      if bos[id].img { vk.Destroy(id, ImageObject); }
      if bos[id].imgMem { vk.Destroy(id, ImageMemory); }
      bos := bos[id := bos[id].(img := false, imgMem := false, stg := false, stgMem := false,
                                ptr := false, locked := false)];
    }

    /** The memory of the image: the duplicated descriptor goes to the driver with it, or is closed. */
    method SetupImageMemory(id: nat) returns (ok: bool)
      requires (id, DupDescriptor) !in vk.live && (id, ImageMemory) !in vk.live && (vk.cb == Pending ==> vk.hung)
      modifies vk`live, vk.calls
      ensures old(vk.calls.failed) <= vk.calls.failed && (ok <==> vk.calls.failed == old(vk.calls.failed))
      ensures vk.live == old(vk.live) + if ok then {(id, ImageMemory)} else {}
    {
      ok := vk.Create(id, DupDescriptor);
      if !ok { return; }
      ok := vk.ImportMemory(id);
      if !ok { vk.Destroy(id, DupDescriptor); }
    }

    /** Import the dma-buf as an image: `img` and `mem` are the handles that are then not null. */
    method SetupImage(id: nat) returns (ok: bool, img: bool, mem: bool)
      requires (id, DupDescriptor) !in vk.live && (id, ImageObject) !in vk.live && (id, ImageMemory) !in vk.live
      requires vk.cb == Pending ==> vk.hung
      modifies vk`live, vk.calls
      ensures old(vk.calls.failed) <= vk.calls.failed && (ok <==> vk.calls.failed == old(vk.calls.failed))
      ensures vk.live == old(vk.live) + Made(id, ImageObject, img) + Made(id, ImageMemory, mem)
      ensures ok ==> img && mem
    {
      mem := false;
      ok := vk.Create(id, ImageObject);
      img := ok;
      if ok { ok := vk.Ask(); }     // vkGetMemoryFdPropertiesKHR, a common memory type, the size fits
      if ok {
        ok := SetupImageMemory(id);
        mem := ok;
      }
      if ok { ok := vk.Ask(); }     // vkBindImageMemory
    }

    /** Memory for the staging buffer, of a type the device has. */
    method AllocateStagingMemory(id: nat, size: nat, was: bool) returns (ok: bool, coherent: bool)
      requires (id, StagingMemory) !in vk.live
      modifies vk`live, vk`memory, vk.calls
      ensures old(vk.calls.failed) <= vk.calls.failed && (ok <==> vk.calls.failed == old(vk.calls.failed))
      ensures vk.live == old(vk.live) + Made(id, StagingMemory, ok) && OnlyMemory(old(vk.memory), vk.memory, id)
      ensures ok ==> id in vk.memory && !vk.memory[id].unflushed && IsMemory(vk.memory[id], size, coherent)
    {
      coherent := was;
      var bits := vk.BufferTypes(types);
      var t := PickStaging(types, bits);
      if t.None? { return false, was; }
      coherent := types[t.value].hostCoherent;
      ok := vk.AllocateStaging(id, size, types[t.value]);
    }

    /** The mapped staging buffer, of `size` bytes. */
    method SetupStaging(id: nat, size: nat, was: bool)
      returns (ok: bool, stg: bool, mem: bool, ptr: bool, coherent: bool)
      requires (id, StagingBuffer) !in vk.live && (id, StagingMemory) !in vk.live
      modifies vk`live, vk`memory, vk.calls
      ensures old(vk.calls.failed) <= vk.calls.failed && (ok <==> vk.calls.failed == old(vk.calls.failed))
      ensures vk.live == old(vk.live) + Made(id, StagingBuffer, stg) + Made(id, StagingMemory, mem)
      ensures OnlyMemory(old(vk.memory), vk.memory, id)
      ensures ok ==> stg && mem && ptr
      ensures ok ==> id in vk.memory && !vk.memory[id].unflushed && IsMemory(vk.memory[id], size, coherent)
    {
      mem, ptr, coherent := false, false, was;
      ok := vk.Create(id, StagingBuffer);
      stg := ok;
      if ok {
        ok, coherent := AllocateStagingMemory(id, size, was);
        mem := ok;
      }
      if ok { ok := vk.Ask(); }     // vkBindBufferMemory
      if ok { ok := vk.Ask(); }     // vkMapMemory
      ptr := ok;
    }

    /** All of the cache, or none of it. */
    method SetupAll(id: nat) returns (ok: bool)
      requires id in bos && Owns(id, bos[id], vk.live) && AllOrNone(bos[id]) && !bos[id].img
      requires vk.cb == Pending ==> vk.hung
      modifies `bos, vk`live, vk`memory, vk.calls
      ensures old(vk.calls.failed) <= vk.calls.failed && (ok <==> vk.calls.failed == old(vk.calls.failed))
      ensures OnlyBo(old(bos), bos, id) && OnlyLive(old(vk.live), vk.live, id)
      ensures Owns(id, bos[id], vk.live) && AllOrNone(bos[id])
      ensures bos[id].dma == old(bos[id].dma) && bos[id].geo == old(bos[id].geo) && !bos[id].locked
      ensures OnlyMemory(old(vk.memory), vk.memory, id)
      ensures ok <==> bos[id].img
      ensures ok ==> id in vk.memory && !vk.memory[id].unflushed
                     && IsMemory(vk.memory[id], ViewSize(bos[id].geo), bos[id].coherent)
    {
      ghost var b, live := bos[id], vk.live;
      var img, mem, ptr, coherent := false, false, false, false;
      ok, img, mem := SetupImage(id);
      OwnsImage(id, b, live, img, mem);
      bos := bos[id := bos[id].(img := img, imgMem := mem)];
      if ok {
        ghost var c, live' := bos[id], vk.live;
        ok, img, mem, ptr, coherent := SetupStaging(id, ViewSize(bos[id].geo), bos[id].coherent);
        OwnsStaging(id, c, live', img, mem, ptr, coherent);
        bos := bos[id := bos[id].(stg := img, stgMem := mem, ptr := ptr, coherent := coherent)];
      }
      if !ok { ReleaseTiled(id); }
    }

    method SetupTiled(id: nat) returns (ok: bool)
      requires Inv() && id in bos && !bos[id].img && Mappable(bos[id].geo)
      modifies `bos, vk`live, vk`memory, vk.calls
      ensures old(vk.calls.failed) <= vk.calls.failed && (ok <==> vk.calls.failed == old(vk.calls.failed))
      ensures Inv() && OnlyAt(old(Now()), Now(), id)
      ensures ok <==> bos[id].img
      ensures ok ==> !vk.memory[id].unflushed
      ensures !bos[id].locked
    {
      ghost var s := Now();
      assert BoOk(s, id) && Owns(id, bos[id], vk.live);
      ok := SetupAll(id);
      OwnedStep(old(bos), old(vk.live), bos, vk.live, id);
      GoodSetUp(s, Now(), id);
    }

    method SubmitCopy(j: Job) returns (ok: bool)
      requires vk.cb != Pending && vk.fence == Unsignalled && vk.Copyable(j)
      requires vk.SharedLive() && vk.BufferLive(j.owner)
      modifies vk`cb, vk`fence, vk`job, vk`submits, vk.calls
      ensures old(vk.calls.failed) <= vk.calls.failed && (ok <==> vk.calls.failed == old(vk.calls.failed))
      ensures vk.submits == old(vk.submits) + if ok then 1 else 0
      ensures ok ==> vk.cb == Pending && vk.fence == InUse && vk.job == j
      ensures !ok ==> vk.cb != Pending && vk.fence == Unsignalled
    {
      ok := vk.ResetCommandBuffer();
      if ok { ok := vk.BeginCommandBuffer(); }
      if !ok { return; }
      vk.RecordCopy(j);
      ok := vk.EndCommandBuffer();
      if ok { ok := vk.QueueSubmit(); }
    }

    /** A whole copy in either direction: recorded, submitted and finished before it returns. */
    method RunCopy(id: nat, b: Bo, toStaging: bool) returns (ok: bool)
      requires xferState == 1 && vk.cb != Pending && vk.fence == Unsignalled && !vk.hung
      requires b.geo.bpp > 0 && vk.Copyable(CopyJob(toStaging, id, b)) && vk.SharedLive() && vk.BufferLive(id)
      modifies `xferState, vk`cb, vk`fence, vk`job, vk`hung, vk`submits, vk`images, vk`memory, vk.calls
      ensures old(vk.calls.failed) <= vk.calls.failed && (ok <==> vk.calls.failed == old(vk.calls.failed))
      ensures ok ==> vk.submits == old(vk.submits) + 1
      ensures xferState in {1, -1}
      ensures xferState == 1 ==> vk.cb != Pending && vk.fence == Unsignalled && !vk.hung
      ensures vk.cb == Pending ==> vk.hung
      ensures ok ==> xferState == 1
      ensures !ok && xferState == 1 ==> vk.images == old(vk.images) && vk.memory == old(vk.memory)
      ensures toStaging ==>
                && vk.images == old(vk.images)
                && OnlyMemory(old(vk.memory), vk.memory, id) && id in vk.memory
                && var m, m' := old(vk.memory)[id], vk.memory[id];
                && m'.unflushed == m.unflushed && IsMemory(m', |m.dev|, m.coherent)
                && (ok ==> m' == ReadBack(CopyJob(true, id, b), old(vk.images)[b.dma], m))
      ensures !toStaging ==>
                && vk.memory == old(vk.memory) && b.dma in vk.images
                && vk.images == old(vk.images)[b.dma := vk.images[b.dma]] && IsImage(b.geo, vk.images[b.dma])
                && (ok ==> vk.images[b.dma] == WrittenBack(CopyJob(false, id, b), old(vk.images)[b.dma], vk.memory[id]))
    {
      ok := SubmitCopy(CopyJob(toStaging, id, b));
      if !ok { return; }
      ok := vk.WaitForFence();
      if !ok {
        xferState := -1;      // what was submitted may go on running
        return;
      }
      ok := vk.ResetFence();
      if !ok { xferState := -1; }
    }

    method CopyTiled(id: nat, toStaging: bool) returns (ok: bool)
      requires Inv() && xferState == 1 && id in bos && bos[id].img
      modifies `xferState, vk`cb, vk`fence, vk`job, vk`hung, vk`submits, vk`images, vk`memory, vk.calls
      ensures old(vk.calls.failed) <= vk.calls.failed && (ok <==> vk.calls.failed == old(vk.calls.failed))
      ensures ok ==> vk.submits == old(vk.submits) + 1
      ensures Inv() && xferState in {1, -1} && (ok ==> xferState == 1)
      ensures !ok && xferState == 1 ==> vk.images == old(vk.images) && vk.memory == old(vk.memory)
      ensures toStaging ==> ReadBackOf(old(Now()), Now(), id, ok)
      ensures !toStaging ==> WriteBackOf(old(Now()), Now(), id, ok)
    {
      ghost var s := Now();
      var b := bos[id];
      assert BoOk(s, id) && Owns(id, b, vk.live);
      CopyAllowed(toStaging, id, b, vk.images[b.dma], vk.memory[id]);
      ok := RunCopy(id, b, toStaging);
      if toStaging {
        GoodReadBack(s, Now(), id, ok);
      } else {
        GoodWriteBack(s, Now(), id, ok);
      }
    }

    // ---- the operations -----------------------------------------------------------------

    /** The copy context and the buffer's cache, as far as they are not there yet. */
    method Prepare(id: nat) returns (ok: bool)
      requires Inv() && id in bos && !bos[id].locked && Mappable(bos[id].geo)
      modifies `xferState, `bos, vk`live, vk`memory, vk.calls
      ensures old(vk.calls.failed) <= vk.calls.failed
      ensures ok <==> old(xferState) >= 0 && vk.calls.failed == old(vk.calls.failed)
      ensures Inv() && OnlyAt(old(Now()), Now(), id)
      ensures outstanding == old(outstanding) && touched == old(touched) && !bos[id].locked
      ensures old(xferState) < 0 ==> xferState < 0 && !ok
      ensures L.StagingKept(AbsStaging(old(Now()), id), AbsStaging(Now(), id))
      ensures ok ==> xferState == 1 && bos[id].img
      ensures xferState != 0
    {
      ok := XferReady();
      if !ok { return; }
      assert BoOk(Now(), id);
      if !bos[id].img { ok := SetupTiled(id); }
    }

    /** Copy the image in, whatever an earlier lock left in the cache. */
    method CopyIn(id: nat) returns (ok: bool)
      requires Inv() && id in bos && !bos[id].locked && Mappable(bos[id].geo)
      modifies `xferState, `bos, vk, vk.calls
      ensures old(vk.calls.failed) <= vk.calls.failed
      ensures ok <==> old(xferState) >= 0 && vk.calls.failed == old(vk.calls.failed)
      ensures Inv() && OnlyAt(old(Now()), Now(), id) && vk.images == old(vk.images)
      ensures outstanding == old(outstanding) && touched == old(touched) && !bos[id].locked
      ensures old(xferState) < 0 ==> xferState < 0 && !ok && vk.submits == old(vk.submits)
      ensures L.StagingKept(AbsStaging(old(Now()), id), AbsStaging(Now(), id))
      ensures ok ==> xferState == 1 && bos[id].img
                     && PixelsOf(bos[id].geo, vk.memory[id].dev) == vk.images[bos[id].dma]
      ensures ok ==> vk.submits == old(vk.submits) + 1
      ensures xferState != 0
    {
      ghost var s := Now();
      ok := Prepare(id);
      if !ok { return; }
      ghost var s' := Now();
      assert BoOk(s', id);
      ok := CopyTiled(id, true);
      OnlyAtTrans(s, s', Now(), id);
    }

    /** What the CPU may have cached of non-coherent staging memory. */
    method InvalidateStaging(id: nat) returns (ok: bool)
      requires Inv() && id in bos && bos[id].img
      modifies vk`memory, vk.calls
      ensures old(vk.calls.failed) <= vk.calls.failed && (ok <==> vk.calls.failed == old(vk.calls.failed))
      ensures Inv() && OnlyAt(old(Now()), Now(), id)
      ensures id in vk.memory && id in old(vk.memory) && vk.memory[id].dev == old(vk.memory)[id].dev
      ensures !ok || bos[id].coherent ==> vk.memory == old(vk.memory)
      ensures ok && !bos[id].coherent ==>
        !vk.memory[id].unflushed && (!old(vk.memory)[id].unflushed ==> vk.memory[id].host == vk.memory[id].dev)
    {
      ghost var s := Now();
      assert BoOk(s, id) && Owns(id, bos[id], vk.live);
      ok := true;
      if !bos[id].coherent {
        ok := vk.Invalidate(id);
        GoodInvalidated(s, Now(), id);
      }
    }

    /** The copy and, for non-coherent memory, the invalidation of what the CPU may have cached. */
    method ShowImage(id: nat) returns (ok: bool)
      requires Inv() && id in bos && !bos[id].locked && Mappable(bos[id].geo)
      modifies `xferState, `bos, vk, vk.calls
      ensures old(vk.calls.failed) <= vk.calls.failed
      ensures ok <==> old(xferState) >= 0 && vk.calls.failed == old(vk.calls.failed)
      ensures Inv() && Shown(old(Now()), Now(), id, ok)
      ensures old(xferState) < 0 ==> xferState < 0 && !ok && vk.submits == old(vk.submits)
      ensures ok ==> xferState == 1 && vk.submits == old(vk.submits) + 1
      ensures xferState != 0
    {
      ghost var s0 := Now();
      ok := CopyIn(id);
      if !ok { return; }
      ghost var s1 := Now();
      assert BoOk(s1, id);
      ok := InvalidateStaging(id);
      ghost var s2 := Now();
      assert s2 == s1.(memory := s2.memory);
      ShownOutcome(s0, s1, s2, id, ok);
    }

    method TakeLock(id: nat, flags: nat)
      requires Inv() && xferState == 1 && id in bos && !bos[id].locked && bos[id].img
      modifies `bos, `outstanding
      ensures Inv() && Now() == LockedNow(old(Now()), id, flags)
    {
      ghost var s' := LockedNow(Now(), id, flags);
      GoodLocked(Now(), id, flags);
      OwnedLocked(bos, vk.live, id, true);
      bos := bos[id := bos[id].(locked := true)];
      outstanding := outstanding[id := Mapping(id, flags)];
      assert Now() == s';
    }

    method MapLocked(id: nat, flags: nat) returns (ok: bool)
      requires Inv() && id in bos && !bos[id].locked && Mappable(bos[id].geo)
      modifies `xferState, `bos, `outstanding, vk, vk.calls
      ensures old(vk.calls.failed) <= vk.calls.failed
      ensures ok <==> old(xferState) >= 0 && vk.calls.failed == old(vk.calls.failed)
      ensures Inv()
      ensures L.Next(Abs(old(Now())), L.Lock(id, HasWrite(flags), ok), Abs(Now()))
      ensures ok ==> id in outstanding && outstanding[id] == Mapping(id, flags)
      ensures old(xferState) < 0 ==> !ok && xferState < 0 && vk.submits == old(vk.submits)
      ensures ok ==> xferState == 1 && vk.submits == old(vk.submits) + 1
      ensures ok && AbsStaging(old(Now()), id) != L.NonCoherent(true) ==> Shows(Now(), id)
      ensures xferState != 0
    {
      ghost var s := Now();
      ok := ShowImage(id);
      if ok {
        LockSucceeds(s, Now(), id, flags);
        TakeLock(id, flags);
      } else {
        LockFails(s, Now(), id, HasWrite(flags));
      }
    }

    method MapUnderLock(id: nat, flags: nat) returns (ok: bool)
      requires Valid() && id in bos && !bos[id].locked && Mappable(bos[id].geo)
      modifies `xferState, `bos, `outstanding, vk, xferLock, vk.calls
      ensures old(vk.calls.failed) <= vk.calls.failed
      ensures ok <==> old(xferState) >= 0 && vk.calls.failed == old(vk.calls.failed)
      ensures Valid()
      ensures L.Next(Abs(old(Now())), L.Lock(id, HasWrite(flags), ok), Abs(Now()))
      ensures ok ==> id in outstanding && outstanding[id] == Mapping(id, flags)
      ensures old(xferState) < 0 ==> !ok && xferState < 0 && vk.submits == old(vk.submits)
      ensures ok ==> xferState == 1 && vk.submits == old(vk.submits) + 1
      ensures ok && AbsStaging(old(Now()), id) != L.NonCoherent(true) ==> Shows(Now(), id)
      ensures xferState != 0
    {
      ghost var s := Now();
      xferLock.Acquire();
      assert Now() == s;
      ok := MapLocked(id, flags);
      ghost var s' := Now();
      xferLock.Release();
      assert Now() == s';
    }

    /** The checks a lock makes before it touches the device, in their order. */
    method LockPossible(id: nat) returns (e: Option<Errno>)
      requires Valid() && id in bos
      modifies device, vk.calls
      ensures old(vk.calls.failed) <= vk.calls.failed
      ensures e ==
        if !LockGuard(bos[id].geo) then Some(EINVAL)
        else if device.state < 0 then Some(ENODEV)
        else if vk.calls.failed > old(vk.calls.failed) then Some(ENOMEM)
        else if bos[id].locked then Some(EBUSY)
        else None
      ensures e.None? ==> Mappable(bos[id].geo)
      ensures old(device.state) != 0 ==> device.state == old(device.state)
    {
      assert BoOk(Now(), id);
      GuardPasses(bos[id].geo, vk.images[bos[id].dma]);
      if !LockGuard(bos[id].geo) { return Some(EINVAL); }
      var ready := device.Get();
      if !ready { return Some(ENODEV); }
      var record := vk.Ask();     // malloc of the mapping record
      if !record { return Some(ENOMEM); }
      return if bos[id].locked then Some(EBUSY) else None;
    }

    /** Every outcome is a lock step of LinearBuffer. While no call fails, the outcome is settled by the guard, the
        device, the buffer and the copy context: a lock that can succeed does. */
    method MapTiled(id: nat, flags: nat) returns (r: MapResult)
      requires Valid() && id in bos
      modifies `xferState, `bos, `outstanding, vk, xferLock, device, vk.calls
      ensures Valid()
      ensures L.Next(Abs(old(Now())), L.Lock(id, HasWrite(flags), r.Mapped?), Abs(Now()))
      ensures r.Mapped? ==> r.m == Mapping(id, flags) && id in outstanding && outstanding[id] == r.m
      ensures r.Mapped? ==> xferState == 1 && vk.submits == old(vk.submits) + 1
      ensures r.Mapped? && AbsStaging(old(Now()), id) != L.NonCoherent(true) ==> Shows(Now(), id)
      ensures old(xferState) < 0 ==> r.Failed? && xferState < 0 && vk.submits == old(vk.submits)
      ensures r == Failed(EINVAL) <==> !LockGuard(old(bos[id].geo))
      ensures r == Failed(EBUSY) ==> old(bos[id].locked)
      ensures old(bos[id].locked) ==> r.Failed? && vk.submits == old(vk.submits)
      ensures old(vk.calls.failed) <= vk.calls.failed
      ensures vk.calls.failed == old(vk.calls.failed) ==>
        r == (if !LockGuard(old(bos[id].geo)) then Failed(EINVAL)
              else if device.state < 0 then Failed(ENODEV)
              else if old(bos[id].locked) then Failed(EBUSY)
              else if old(xferState) < 0 then Failed(EIO)
              else Mapped(Mapping(id, flags)))
      ensures vk.calls.failed == old(vk.calls.failed) && old(xferState) >= 0 ==> xferState >= 0
      ensures old(xferState) != 0 ==> xferState != 0
      ensures old(device.state) != 0 ==> device.state == old(device.state)
    {
      ghost var s := Now();
      var e := LockPossible(id);
      assert Now() == s;
      if e.Some? {
        LockFails(s, s, id, HasWrite(flags));
        return Failed(e.value);
      }
      var ok := MapUnderLock(id, flags);
      return if ok then Mapped(Mapping(id, flags)) else Failed(EIO);
    }

    /** Flush what the CPU wrote, where the memory asks for it. */
    method FlushStaging(id: nat) returns (ok: bool)
      requires Inv() && id in bos && bos[id].img
      modifies vk`memory, vk.calls
      ensures Inv() && id in old(vk.memory)
      ensures old(vk.calls.failed) <= vk.calls.failed && (ok <==> vk.calls.failed == old(vk.calls.failed))
      ensures vk.memory == if ok && !bos[id].coherent
                           then old(vk.memory)[id := Flushed(old(vk.memory)[id])] else old(vk.memory)
    {
      ghost var s := Now();
      assert BoOk(s, id) && Owns(id, bos[id], vk.live);
      ok := true;
      if !bos[id].coherent {
        ok := vk.Flush(id);
        if ok { GoodFlushed(s, id); }
      }
    }

    /** Flush what the CPU wrote, then copy the whole staging buffer back. While the context has not failed and
        no call fails, both happen. */
    method CopyOut(id: nat) returns (ok: bool, ghost flushed: bool)
      requires Inv() && id in bos && bos[id].locked
      modifies `xferState, vk, vk.calls
      ensures Inv() && Stored(old(Now()), Now(), id, ok, flushed)
      ensures old(vk.calls.failed) <= vk.calls.failed
      ensures ok <==> old(xferState) >= 0 && vk.calls.failed == old(vk.calls.failed)
      ensures ok ==> xferState == 1 && vk.submits == old(vk.submits) + 1
      ensures old(xferState) < 0 ==> !ok && vk.submits == old(vk.submits) && Now() == old(Now()) && xferState < 0
      ensures old(xferState) != 0 ==> xferState != 0
    {
      ghost var s := Now();
      assert BoOk(s, id);
      ok, flushed := bos[id].locked && bos[id].geo.bpp > 0 && xferState > 0, false;
      NothingStored(s, id);
      if !ok { return; }
      ok := FlushStaging(id);
      ghost var s1 := Now();
      flushed := ok;
      if !ok { return; }
      assert BoOk(s1, id);
      ok := CopyTiled(id, false);
      StoredBack(s, s1, Now(), id, ok);
    }

    method ReleaseLock(id: nat)
      requires Inv() && id in bos
      modifies `bos, `outstanding, `touched
      ensures Inv() && Now() == UnlockedNow(old(Now()), id)
    {
      ghost var s' := UnlockedNow(Now(), id);
      GoodUnlocked(Now(), id);
      OwnedLocked(bos, vk.live, id, false);
      bos := bos[id := bos[id].(locked := false)];
      outstanding, touched := outstanding - {id}, touched - {id};
      assert Now() == s';
    }

    method UnmapLocked(m: Mapping, flags: nat) returns (ok: bool, ghost flushed: bool)
      requires Inv() && m.bo in outstanding && outstanding[m.bo] == m
      modifies `xferState, `bos, `outstanding, `touched, vk, vk.calls
      ensures Inv()
      ensures L.Next(Abs(old(Now())), L.Unlock(m.bo, HasWrite(flags), ok, flushed), Abs(Now()))
      ensures m.bo !in outstanding
      ensures !HasWrite(m.flags) && !HasWrite(flags) ==> vk.images == old(vk.images) && vk.submits == old(vk.submits)
      ensures old(xferState) < 0 ==> vk.images == old(vk.images) && vk.submits == old(vk.submits)
      ensures old(vk.calls.failed) <= vk.calls.failed
      ensures vk.calls.failed == old(vk.calls.failed) && old(xferState) >= 0 ==> ok && xferState >= 0
      ensures ok && (m.flags / 2 % 2 == 1 || flags / 2 % 2 == 1) ==>
        vk.submits == old(vk.submits) + 1 && HoldsView(old(Now()), m.bo, vk.images)
      ensures old(xferState) != 0 ==> xferState != 0
    {
      ghost var s := Now();
      ok, flushed := true, false;
      if HasWrite(m.flags) || HasWrite(flags) {
        ok, flushed := CopyOut(m.bo);
        WriteUnlockStep(s, Now(), m.bo, HasWrite(flags), ok, flushed);
        if ok { StoredView(s, Now(), m.bo); }
      } else {
        ReadUnlockStep(s, m.bo, HasWrite(flags));
      }
      ReleaseLock(m.bo);
    }

    /** Every outcome is an unlock step of LinearBuffer. With WRITE in either flag set, while the context has not failed
        and no call fails, one copy is submitted and the image then holds exactly the pixels of the view. */
    method UnmapTiled(m: Mapping, flags: nat) returns (ok: bool, ghost flushed: bool)
      requires Valid() && m.bo in outstanding && outstanding[m.bo] == m
      modifies `xferState, `bos, `outstanding, `touched, vk, xferLock, vk.calls
      ensures Valid()
      ensures L.Next(Abs(old(Now())), L.Unlock(m.bo, HasWrite(flags), ok, flushed), Abs(Now()))
      ensures m.bo !in outstanding
      ensures !HasWrite(m.flags) && !HasWrite(flags) ==> vk.images == old(vk.images) && vk.submits == old(vk.submits)
      ensures old(xferState) < 0 ==> vk.images == old(vk.images) && vk.submits == old(vk.submits)
      ensures old(vk.calls.failed) <= vk.calls.failed
      ensures vk.calls.failed == old(vk.calls.failed) && old(xferState) >= 0 ==> ok && xferState >= 0
      ensures ok && (m.flags / 2 % 2 == 1 || flags / 2 % 2 == 1) ==>
        vk.submits == old(vk.submits) + 1 && HoldsView(old(Now()), m.bo, vk.images)
      ensures old(xferState) != 0 ==> xferState != 0
    {
      ghost var s := Now();
      xferLock.Acquire();
      assert Now() == s;
      ok, flushed := UnmapLocked(m, flags);
      ghost var s' := Now();
      xferLock.Release();
      assert Now() == s';
    }

    method ReleaseAll(id: nat)
      requires id in bos && Owns(id, bos[id], vk.live) && (vk.cb == Pending ==> vk.hung)
      requires AllOrNone(bos[id]) && !xferLock.held
      modifies `bos, xferLock, vk`live
      ensures bos == old(bos) - {id} && OnlyLive(old(vk.live), vk.live, id)
      ensures forall k :: (id, k) !in vk.live
      ensures !xferLock.held
    {
      if bos[id].img || bos[id].stg {
        xferLock.Acquire();
        ReleaseTiled(id);
        xferLock.Release();
      }
      vk.Destroy(id, BoDescriptor);
      NothingLeft(id, bos[id], vk.live + {(id, BoDescriptor)});
      bos := bos - {id};
    }

    /** Releases the cache, locked or not, and the descriptor: nothing of the buffer is left. */
    method Free(id: nat)
      requires Valid() && id in bos
      modifies `bos, `outstanding, `touched, xferLock, vk`live
      ensures Valid()
      ensures L.Next(Abs(old(Now())), L.Free(id), Abs(Now()))
      ensures id !in bos && forall k :: (id, k) !in vk.live
    {
      ghost var s, live := Now(), vk.live;
      assert BoOk(s, id) && Owns(id, bos[id], vk.live);
      ReleaseAll(id);
      outstanding, touched := outstanding - {id}, touched - {id};
      FreeStep(s, Now(), id);
      OwnedFree(s.bos, live, bos, vk.live, id);
    }

    method OpenBo() returns (ok: bool)
      requires Valid()
      modifies vk`live, vk.calls
      ensures old(vk.calls.failed) <= vk.calls.failed && (ok <==> vk.calls.failed == old(vk.calls.failed))
      ensures vk.live == if ok then old(vk.live) + {(nextBo, BoDescriptor)} else old(vk.live)
      ensures XferOk() && nextBo !in bos && nextBo != 0
    {
      assert nextBo !in bos && (nextBo, BoDescriptor) !in vk.live;
      ok := vk.Ask();           // lseek finds a dma-buf this process can address
      if ok { ok := vk.Ask(); } // calloc
      if ok { ok := vk.Create(nextBo, BoDescriptor); }
    }

    method EnterBo(b: Bo) returns (id: nat)
      requires XferOk() && !xferLock.held && (forall id :: id in bos ==> id < nextBo) && 0 < nextBo
      requires Owned(bos[nextBo := b], vk.live) && Good(Now().(bos := bos[nextBo := b]))
      modifies `bos, `nextBo
      ensures Valid() && id == old(nextBo) && Now() == old(Now()).(bos := old(bos)[id := b])
    {
      id := nextBo;
      bos, nextBo := bos[id := b], nextBo + 1;
    }

    method Import(dma: nat, geo: Geo) returns (r: Option<nat>)
      requires Valid() && dma in vk.images && Imported(geo, vk.images[dma])
      modifies `bos, `nextBo, vk`live, vk.calls
      ensures Valid()
      ensures old(vk.calls.failed) <= vk.calls.failed && (r.Some? <==> vk.calls.failed == old(vk.calls.failed))
      ensures r.Some? ==> L.Next(Abs(old(Now())), L.Import(r.value, dma, geo), Abs(Now()))
      ensures r.None? ==> Now() == old(Now()) && vk.live == old(vk.live)
    {
      ghost var s, live := Now(), vk.live;
      var ok := OpenBo();
      assert Now() == s;
      if !ok { return None; }
      var b := Bo(dma, geo, false, false, false, false, false, false, false);
      ImportStep(s, s.(bos := s.bos[nextBo := b]), nextBo);
      OwnedImport(s.bos, live, s.bos[nextBo := b], vk.live, nextBo);
      var id := EnterBo(b);
      return Some(id);
    }

    /** The CPU stores a byte through a view it holds. */
    method CpuStore(id: nat, off: nat, b: byte)
      requires Valid() && id in bos && bos[id].locked && off < ViewSize(bos[id].geo)
      modifies `touched, vk`memory
      ensures Valid()
      ensures L.Next(Abs(old(Now())), L.Store(id, off, b), Abs(Now()))
    {
      ghost var s := Now();
      assert BoOk(s, id);
      StoreThrough(id, off, b);
      StoreStep(s, Now(), id, off, b);
    }

    method StoreThrough(id: nat, off: nat, b: byte)
      requires Inv() && id in bos && bos[id].locked && id in vk.memory
      requires off < |vk.memory[id].host| && off < |vk.memory[id].dev|
      modifies `touched, vk`memory
      ensures Inv() && Now() == StoredNow(old(Now()), id, off, b)
    {
      ghost var s' := StoredNow(Now(), id, off, b);
      GoodStored(Now(), id, off, b);
      vk.CpuStore(id, off, b);
      touched := touched + {id};
      assert Now() == s';
    }

    /** Another user of the dma-buf (the GPU, another process) writes its image. */
    method External(dma: nat, img: Image)
      requires Valid() && dma in vk.images && SameShape(vk.images[dma], img)
      modifies vk`images
      ensures Valid()
      ensures L.Next(Abs(old(Now())), L.External(dma, img), Abs(Now()))
    {
      ghost var s := Now();
      vk.images := vk.images[dma := img];
      GoodNewImage(s, Now(), dma, img);
      AbsNewImages(s, vk.images);
    }
  }

  /** The locked buffer's view shows its image. */
  ghost predicate Shows(s: Snap, id: nat) {
    && id in s.bos && id in s.memory && s.bos[id].dma in s.images
    && Mappable(s.bos[id].geo) && |s.memory[id].host| == ViewSize(s.bos[id].geo)
    && PixelsOf(s.bos[id].geo, s.memory[id].host) == s.images[s.bos[id].dma]
  }

  /** The image behind the buffer holds what its view held in `s`. */
  ghost predicate HoldsView(s: Snap, id: nat, images: map<nat, Image>) {
    && id in s.bos && id in s.memory && s.bos[id].dma in images
    && Mappable(s.bos[id].geo) && |s.memory[id].host| == ViewSize(s.bos[id].geo)
    && images[s.bos[id].dma] == PixelsOf(s.bos[id].geo, s.memory[id].host)
  }

  // ---- the steps, on values -----------------------------------------------------------------

  lemma GoodFlushed(s: Snap, id: nat)
    requires Good(s) && id in s.bos && s.bos[id].img && !s.bos[id].coherent && id in s.memory
    ensures var s' := s.(memory := s.memory[id := Flushed(s.memory[id])]); Good(s') && OnlyAt(s, s', id)
  {
    assert BoOk(s, id);
    GoodCopied(s, s.(memory := s.memory[id := Flushed(s.memory[id])]), id);
  }

  ghost function UnlockedNow(s: Snap, id: nat): Snap
    requires id in s.bos
  {
    s.(bos := s.bos[id := s.bos[id].(locked := false)],
       outstanding := s.outstanding - {id}, touched := s.touched - {id})
  }

  lemma GoodUnlocked(s: Snap, id: nat)
    requires Good(s) && id in s.bos
    ensures Good(UnlockedNow(s, id)) && OnlyAt(s, UnlockedNow(s, id), id)
  {
    var s' := UnlockedNow(s, id);
    assert BoOk(s, id) && BoOk(s', id);
    GoodOnlyAt(s, s', id);
  }

  /** What the write-back half of an unlock may leave, before the buffer is unlocked. */
  ghost predicate Stored(s: Snap, s': Snap, id: nat, ok: bool, flushed: bool) {
    && id in s.bos && id in s.memory && id in s'.memory && s.bos[id].dma in s.images && s.bos[id].dma in s'.images
    && s' == s.(images := s.images[s.bos[id].dma := s'.images[s.bos[id].dma]],
                memory := s.memory[id := s'.memory[id]], failed := s'.failed)
    && (s.failed ==> s'.failed)
    && s'.memory[id].host == s.memory[id].host
    && s'.memory[id] == (if flushed && !s.bos[id].coherent then Flushed(s.memory[id]) else s.memory[id])
    && (ok ==> flushed)
    && (!ok && s'.failed == s.failed ==> s'.images == s.images)
    && (ok ==>
          && !s.failed && !s'.failed
          && StagingOk(s.bos[id].geo, s'.memory[id], s.bos[id].coherent)
          && !s'.memory[id].unflushed
          && s'.images[s.bos[id].dma] == PixelsOf(s.bos[id].geo, s'.memory[id].host))
  }

  lemma NothingStored(s: Snap, id: nat)
    requires Good(s) && id in s.bos && s.bos[id].img && id in s.memory
    ensures Stored(s, s, id, false, false)
  {
    assert BoOk(s, id);
  }

  /** A flush where the memory asks for one and a copy back store the view. */
  lemma StoredBack(s: Snap, s1: Snap, s': Snap, id: nat, ok: bool)
    requires Good(s) && id in s.bos && s.bos[id].img && id in s.memory && s.bos[id].dma in s.images && !s.failed
    requires s1 == if s.bos[id].coherent then s else s.(memory := s.memory[id := Flushed(s.memory[id])])
    requires WriteBackOf(s1, s', id, ok) && (ok ==> !s'.failed)
    requires !ok && !s'.failed ==> s'.images == s1.images
    ensures Stored(s, s', id, ok, true)
  {
    assert BoOk(s, id);
  }

  lemma StoredView(s: Snap, s': Snap, id: nat)
    requires Good(s) && id in s.bos && s.bos[id].locked && Stored(s, s', id, true, true)
    ensures HoldsView(s, id, s'.images)
  {
    assert BoOk(s, id);
  }

  lemma StagingAfter(s: Snap, s': Snap, id: nat, ok: bool, flushed: bool)
    requires Stored(s, s', id, ok, flushed)
    ensures AbsStaging(UnlockedNow(s', id), id)
      == (if flushed && AbsStaging(s, id).NonCoherent? then L.NonCoherent(false) else AbsStaging(s, id))
  {}

  lemma ViewOf(s: Snap, id: nat)
    requires Good(s) && id in s.bos && s.bos[id].locked && id in s.memory
    ensures id in s.outstanding && Mappable(s.bos[id].geo) && |s.memory[id].host| == ViewSize(s.bos[id].geo)
    ensures AbsLock(s, id)
      == L.Locked(HasWrite(s.outstanding[id].flags), id in s.touched, PixelsOf(s.bos[id].geo, s.memory[id].host))
  {
    assert BoOk(s, id);
  }

  /** All of the state but the image and the buffer itself. */
  lemma OnlyTheBuffer(s: Snap, s': Snap, id: nat, ok: bool, flushed: bool)
    requires Good(s) && Good(s') && Stored(s, s', id, ok, flushed)
    ensures L.OnlyBuf(Abs(s), Abs(UnlockedNow(s', id)), id)
  {
    var s'' := UnlockedNow(s', id);
    GoodUnlocked(s', id);
    AbsOnlyAt(s, s''.(images := s.images), id);
    AbsNewImages(s'', s.images);
  }

  lemma WriteUnlockStep(s: Snap, s': Snap, id: nat, write: bool, ok: bool, flushed: bool)
    requires Good(s) && Good(s') && Stored(s, s', id, ok, flushed) && s.bos[id].locked
    requires id in s.outstanding && (write || HasWrite(s.outstanding[id].flags))
    ensures L.Next(Abs(s), L.Unlock(id, write, ok, flushed), Abs(UnlockedNow(s', id)))
  {
    ViewOf(s, id);
    StagingAfter(s, s', id, ok, flushed);
    OnlyTheBuffer(s, s', id, ok, flushed);
  }

  lemma ReadUnlockStep(s: Snap, id: nat, write: bool)
    requires Good(s) && id in s.bos && s.bos[id].locked
    requires id in s.outstanding && !write && !HasWrite(s.outstanding[id].flags)
    ensures L.Next(Abs(s), L.Unlock(id, write, true, false), Abs(UnlockedNow(s, id)))
  {
    assert BoOk(s, id);
    GoodUnlocked(s, id);
    AbsOnlyAt(s, UnlockedNow(s, id), id);
  }

  lemma FreeStep(s: Snap, s': Snap, id: nat)
    requires Good(s) && id in s.bos
    requires s' == s.(bos := s.bos - {id}, outstanding := s.outstanding - {id}, touched := s.touched - {id})
    ensures Good(s') && L.Next(Abs(s), L.Free(id), Abs(s'))
  {
    forall j | j in s'.bos ensures BoOk(s', j) && AbsBuf(s', j) == AbsBuf(s, j) {
      assert BoOk(s, j);
    }
    assert Abs(s').bufs == Abs(s).bufs - {id};
  }

  lemma OwnedFree(bos: map<nat, Bo>, live: set<(nat, Kind)>, bos': map<nat, Bo>, live': set<(nat, Kind)>, id: nat)
    requires Owned(bos, live) && id in bos && bos' == bos - {id} && OnlyLive(live, live', id)
    requires forall k :: (id, k) !in live'
    ensures Owned(bos', live')
  {
    forall j | j in bos' ensures Owns(j, bos'[j], live') { assert Owns(j, bos[j], live); }
  }

  lemma NothingLeft(id: nat, b: Bo, live: set<(nat, Kind)>)
    requires Owns(id, b, live) && AllOrNone(b) && !b.img
    ensures forall k :: (id, k) !in live - {(id, BoDescriptor)}
  {
    forall k: Kind ensures (id, k) !in live - {(id, BoDescriptor)} {
      match k {
        case BoDescriptor =>
        case DupDescriptor =>
        case ImageObject =>
        case ImageMemory =>
        case StagingBuffer =>
        case StagingMemory =>
        case CommandPool =>
        case CommandBufferObject =>
        case FenceObject =>
      }
    }
  }

  lemma ImportStep(s: Snap, s': Snap, id: nat)
    requires Good(s) && id !in s.bos && id in s'.bos
    requires s' == s.(bos := s.bos[id := s'.bos[id]])
    requires s'.bos[id].dma in s.images && Imported(s'.bos[id].geo, s.images[s'.bos[id].dma])
    requires AllOrNone(s'.bos[id]) && !s'.bos[id].img
    ensures Good(s') && L.Next(Abs(s), L.Import(id, s'.bos[id].dma, s'.bos[id].geo), Abs(s'))
  {
    assert BoOk(s', id);
    forall j | j in s.bos ensures BoOk(s', j) && AbsBuf(s', j) == AbsBuf(s, j) {
      assert BoOk(s, j);
    }
    assert Abs(s').bufs == Abs(s).bufs[id := AbsBuf(s', id)];
  }

  lemma OwnedImport(bos: map<nat, Bo>, live: set<(nat, Kind)>, bos': map<nat, Bo>, live': set<(nat, Kind)>, id: nat)
    requires Owned(bos, live) && id !in bos && id != 0 && id in bos' && bos' == bos[id := bos'[id]]
    requires AllOrNone(bos'[id]) && !bos'[id].img && live' == live + {(id, BoDescriptor)}
    ensures Owned(bos', live')
  {
    forall j | j in bos' ensures Owns(j, bos'[j], live') {
      if j != id { assert Owns(j, bos[j], live); }
    }
  }

  ghost function StoredNow(s: Snap, id: nat, off: nat, b: byte): Snap
    requires id in s.memory && off < |s.memory[id].host| && off < |s.memory[id].dev|
  {
    s.(memory := s.memory[id := Written(s.memory[id], off, b)], touched := s.touched + {id})
  }

  lemma GoodStored(s: Snap, id: nat, off: nat, b: byte)
    requires Good(s) && id in s.bos && s.bos[id].locked && id in s.memory
    requires off < |s.memory[id].host| && off < |s.memory[id].dev|
    ensures Good(StoredNow(s, id, off, b)) && OnlyAt(s, StoredNow(s, id, off, b), id)
  {
    var s' := StoredNow(s, id, off, b);
    assert BoOk(s, id) && BoOk(s', id);
    GoodOnlyAt(s, s', id);
  }

  lemma StoreStep(s: Snap, s': Snap, id: nat, off: nat, b: byte)
    requires Good(s) && id in s.bos && s.bos[id].locked && id in s.memory
    requires off < |s.memory[id].host| && off < |s.memory[id].dev| && s' == StoredNow(s, id, off, b)
    ensures L.Next(Abs(s), L.Store(id, off, b), Abs(s'))
  {
    assert BoOk(s, id);
    GoodStored(s, id, off, b);
    assert BoOk(s', id);
    AbsOnlyAt(s, s', id);
    StoreThroughView(s.bos[id].geo, s.memory[id].host, off, b);
  }

  lemma LockFails(s: Snap, s': Snap, id: nat, write: bool)
    requires Good(s) && Good(s') && id in s.bos && OnlyAt(s, s', id) && s'.images == s.images
    requires s'.bos[id].locked == s.bos[id].locked && (s.bos[id].locked ==> s' == s)
    requires s.failed ==> s'.failed
    requires L.StagingKept(AbsStaging(s, id), AbsStaging(s', id))
    ensures L.Next(Abs(s), L.Lock(id, write, false), Abs(s'))
  {
    AbsOnlyAt(s, s', id);
  }

  lemma GoodInvalidated(s: Snap, s': Snap, id: nat)
    requires Good(s) && id in s.bos && s.bos[id].img && !s.bos[id].coherent && id in s.memory
    requires s' == s.(memory := s'.memory) && OnlyMemory(s.memory, s'.memory, id) && id in s'.memory
    requires s'.memory[id].dev == s.memory[id].dev && s'.memory[id].coherent == s.memory[id].coherent
    requires |s'.memory[id].host| == |s.memory[id].host|
    ensures Good(s') && OnlyAt(s, s', id)
  {
    assert BoOk(s, id);
    GoodCopied(s, s', id);
  }

  /** Unflushed writes let an invalidation show another first byte. */
  lemma OtherView(g: Geo, m: Memory) returns (m': Memory)
    requires Mappable(g) && 0 < g.width && 0 < g.height && |m.dev| == ViewSize(g) && m.unflushed
    ensures Invalidated(m, m') && |m'.host| == ViewSize(g) && PixelsOf(g, m'.host) != PixelsOf(g, m.dev)
  {
    PixelInBounds(g, 0, 0);
    m' := m.(host := m.dev[0 := m.dev[0] ^ 1], unflushed := false);
    assert PixelsOf(g, m'.host)[0][0][0] == m'.host[0] && PixelsOf(g, m.dev)[0][0][0] == m.dev[0];
  }

  /** Behind a copy in, every outcome the driver allows for an invalidation shows the image exactly if no CPU
      write was left unflushed. */
  lemma InvalidationShowsExactly(g: Geo, m: Memory)
    requires Mappable(g) && 0 < g.width && 0 < g.height && |m.dev| == ViewSize(g)
    ensures (forall m' :: Invalidated(m, m') ==> PixelsOf(g, m'.host) == PixelsOf(g, m.dev)) <==> !m.unflushed
  {
    if m.unflushed {
      var m' := OtherView(g, m);
    }
  }

  lemma CopiedIn(g: Geo, img: Image, m: Memory, owner: nat, dma: nat)
    requires Mappable(g) && 0 < g.width && 0 < g.height && IsImage(g, img)
    requires IsMemory(m, ViewSize(g), false)
    ensures var job := Job(true, owner, dma, g, g.stride / g.bpp);
      && CanCopy(job, img, m)
      && var copied := ReadBack(job, img, m);
         |copied.dev| == ViewSize(g) && copied.unflushed == m.unflushed && PixelsOf(g, copied.dev) == img
  {
    PixelInBounds(g, 0, 0);
    RowHolds(g);
    LockRegionFits(g);
    ReadBackShowsImage(g, img, m.dev);
  }

  /** The stale lock, in what the driver is asked for: a store into a view of non-coherent memory, an unlock that
      does nothing, a copy in, and an invalidation that may show what the image does not hold. */
  lemma DriverAllowsStale(g: Geo, img: Image, m: Memory, off: nat, b: byte, owner: nat, dma: nat) returns (m': Memory)
    requires Mappable(g) && 0 < g.width && 0 < g.height && IsImage(g, img)
    requires IsMemory(m, ViewSize(g), false) && off < ViewSize(g)
    ensures var job := Job(true, owner, dma, g, g.stride / g.bpp);
      && CanCopy(job, img, Written(m, off, b))
      && Invalidated(ReadBack(job, img, Written(m, off, b)), m')
    ensures |m'.host| == ViewSize(g) && PixelsOf(g, m'.host) != img
  {
    var stored := Written(m, off, b);
    CopiedIn(g, img, stored, owner, dma);
    m' := OtherView(g, ReadBack(Job(true, owner, dma, g, g.stride / g.bpp), img, stored));
  }

  /** The buffer's copy is in and its view shows the image (unless an unflushed CPU write
      made the view undefined). */
  ghost predicate ReadyToLock(s: Snap, s': Snap, id: nat) {
    && id in s.bos && id in s'.bos && s'.bos[id].img && id in s'.memory && s.bos[id].dma in s.images
    && StagingOk(s.bos[id].geo, s'.memory[id], s'.bos[id].coherent)
    && !s'.memory[id].unflushed
    && (AbsStaging(s, id) != L.NoStaging ==> s'.bos[id].coherent == s.bos[id].coherent)
    && (AbsStaging(s, id) != L.NonCoherent(true) ==>
          PixelsOf(s.bos[id].geo, s'.memory[id].host) == s.images[s.bos[id].dma])
  }

  /** What a lock's copy leaves, before the buffer is locked. */
  ghost predicate Shown(s: Snap, s': Snap, id: nat, ok: bool) {
    && OnlyAt(s, s', id) && s'.images == s.images && s'.outstanding == s.outstanding && s'.touched == s.touched
    && !s'.bos[id].locked
    && if ok then ReadyToLock(s, s', id) else L.StagingKept(AbsStaging(s, id), AbsStaging(s', id))
  }

  lemma ShownOutcome(s: Snap, s1: Snap, s': Snap, id: nat, ok: bool)
    requires Good(s) && Good(s1) && Good(s') && OnlyAt(s, s1, id) && OnlyAt(s1, s', id)
    requires s' == s1.(memory := s'.memory)
    requires s1.images == s.images && s1.outstanding == s.outstanding && s1.touched == s.touched
    requires s1.bos[id].img && !s1.bos[id].locked && L.StagingKept(AbsStaging(s, id), AbsStaging(s1, id))
    requires id in s1.memory && id in s'.memory && Mappable(s.bos[id].geo) && s.bos[id].dma in s.images
    requires |s1.memory[id].dev| == ViewSize(s.bos[id].geo)
    requires PixelsOf(s.bos[id].geo, s1.memory[id].dev) == s.images[s.bos[id].dma]
    requires !ok || s1.bos[id].coherent ==> s' == s1
    requires ok && !s1.bos[id].coherent ==>
      && !s'.memory[id].unflushed && s'.memory[id].dev == s1.memory[id].dev
      && (!s1.memory[id].unflushed ==> s'.memory[id].host == s'.memory[id].dev)
    ensures Shown(s, s', id, ok)
  {
    OnlyAtTrans(s, s1, s', id);
    if ok { ShownReady(s, s1, s', id); }
  }

  /** A copy in, and an invalidation where the memory asks for one, are what a lock needs. */
  lemma ShownReady(s: Snap, s1: Snap, s': Snap, id: nat)
    requires Good(s) && Good(s1) && Good(s') && OnlyAt(s, s1, id) && OnlyAt(s1, s', id) && OnlyAt(s, s', id)
    requires s1.images == s.images && s'.images == s.images && s'.bos == s1.bos && s1.bos[id].img
    requires L.StagingKept(AbsStaging(s, id), AbsStaging(s1, id))
    requires id in s1.memory && id in s'.memory && Mappable(s.bos[id].geo) && s.bos[id].dma in s.images
    requires |s1.memory[id].dev| == ViewSize(s.bos[id].geo)
    requires PixelsOf(s.bos[id].geo, s1.memory[id].dev) == s.images[s.bos[id].dma]
    requires s1.bos[id].coherent ==> s' == s1
    requires !s1.bos[id].coherent ==> !s'.memory[id].unflushed && s'.memory[id].dev == s1.memory[id].dev
    requires !s1.bos[id].coherent && !s1.memory[id].unflushed ==> s'.memory[id].host == s'.memory[id].dev
    ensures ReadyToLock(s, s', id)
  {
    assert BoOk(s, id) && BoOk(s1, id) && BoOk(s', id);
  }

  ghost function LockedNow(s: Snap, id: nat, flags: nat): Snap
    requires id in s.bos
  {
    s.(bos := s.bos[id := s.bos[id].(locked := true)], outstanding := s.outstanding[id := Mapping(id, flags)])
  }

  lemma GoodLocked(s: Snap, id: nat, flags: nat)
    requires Good(s) && id in s.bos && !s.bos[id].locked && s.bos[id].img
    ensures Good(LockedNow(s, id, flags)) && OnlyAt(s, LockedNow(s, id, flags), id)
    ensures id !in s.touched
  {
    var s' := LockedNow(s, id, flags);
    assert BoOk(s, id) && BoOk(s', id);
    GoodOnlyAt(s, s', id);
  }

  /** A buffer that can be mapped has its image's own shape. */
  lemma TrueShape(s: Snap, id: nat)
    requires Good(s) && id in s.bos && Mappable(s.bos[id].geo)
    ensures s.bos[id].dma in s.images && IsImage(s.bos[id].geo, s.images[s.bos[id].dma])
  {
    assert BoOk(s, id);
    GuardPasses(s.bos[id].geo, s.images[s.bos[id].dma]);
  }

  lemma LockedView(s: Snap, s': Snap, id: nat, flags: nat)
    requires Good(s') && OnlyAt(s, s', id) && !s'.bos[id].locked && ReadyToLock(s, s', id)
    ensures AbsLock(LockedNow(s', id, flags), id)
      == L.Locked(HasWrite(flags), false, PixelsOf(s.bos[id].geo, s'.memory[id].host))
    ensures AbsStaging(LockedNow(s', id, flags), id) == if s'.bos[id].coherent then L.Coherent else L.NonCoherent(false)
  {
    GoodLocked(s', id, flags);
  }

  lemma LockedOnly(s: Snap, s': Snap, id: nat, flags: nat)
    requires Good(s) && Good(s') && OnlyAt(s, s', id) && !s'.bos[id].locked && s'.bos[id].img
    ensures L.OnlyBuf(Abs(s), Abs(LockedNow(s', id, flags)), id)
  {
    GoodLocked(s', id, flags);
    OnlyAtTrans(s, s', LockedNow(s', id, flags), id);
    AbsOnlyAt(s, LockedNow(s', id, flags), id);
  }

  lemma LockSucceeds(s: Snap, s': Snap, id: nat, flags: nat)
    requires Good(s) && Good(s') && OnlyAt(s, s', id) && s'.images == s.images
    requires !s.failed && !s'.failed && !s.bos[id].locked && !s'.bos[id].locked
    requires ReadyToLock(s, s', id)
    ensures L.Next(Abs(s), L.Lock(id, HasWrite(flags), true), Abs(LockedNow(s', id, flags)))
  {
    TrueShape(s, id);
    LockedView(s, s', id, flags);
    LockedOnly(s, s', id, flags);
    assert Abs(s).bufs[id] == AbsBuf(s, id);
    assert Abs(LockedNow(s', id, flags)).bufs[id] == AbsBuf(LockedNow(s', id, flags), id);
  }

  lemma GoodSetUp(s: Snap, s': Snap, id: nat)
    requires Good(s) && id in s.bos && !s.bos[id].img && Mappable(s.bos[id].geo)
    requires s' == s.(bos := s'.bos, memory := s'.memory)
    requires OnlyBo(s.bos, s'.bos, id) && OnlyMemory(s.memory, s'.memory, id)
    requires s'.bos[id].dma == s.bos[id].dma && s'.bos[id].geo == s.bos[id].geo
    requires AllOrNone(s'.bos[id]) && !s'.bos[id].locked
    requires s'.bos[id].img ==> id in s'.memory && !s'.memory[id].unflushed
                                && IsMemory(s'.memory[id], ViewSize(s.bos[id].geo), s'.bos[id].coherent)
    ensures Good(s') && OnlyAt(s, s', id)
  {
    assert BoOk(s, id);
    GuardPasses(s.bos[id].geo, s.images[s.bos[id].dma]);
    assert BoOk(s', id);
    GoodOnlyAt(s, s', id);
  }

  ghost predicate ReadBackOf(s: Snap, s': Snap, id: nat, ok: bool) {
    && s' == s.(memory := s'.memory, failed := s'.failed)
    && OnlyAt(s, s', id) && id in s.memory && id in s'.memory
    && s'.memory[id].unflushed == s.memory[id].unflushed
    && s'.bos[id].dma in s.images && StagingOk(s.bos[id].geo, s'.memory[id], s.bos[id].coherent)
    && (ok ==> PixelsOf(s.bos[id].geo, s'.memory[id].dev) == s.images[s.bos[id].dma])
  }

  lemma GoodReadBack(s: Snap, s': Snap, id: nat, ok: bool)
    requires Good(s) && id in s.bos && s.bos[id].img && id in s.memory && s.bos[id].dma in s.images
    requires s' == s.(memory := s'.memory, failed := s'.failed)
    requires OnlyMemory(s.memory, s'.memory, id) && id in s'.memory
    requires var m, m' := s.memory[id], s'.memory[id];
             m'.unflushed == m.unflushed && IsMemory(m', |m.dev|, m.coherent)
    requires StagingOk(s.bos[id].geo, s.memory[id], s.bos[id].coherent)
    requires IsImage(s.bos[id].geo, s.images[s.bos[id].dma])
    requires CanCopy(CopyJob(true, id, s.bos[id]), s.images[s.bos[id].dma], s.memory[id])
    requires ok ==> s'.memory[id] == ReadBack(CopyJob(true, id, s.bos[id]), s.images[s.bos[id].dma], s.memory[id])
    ensures Good(s') && ReadBackOf(s, s', id, ok)
  {
    ReadBackPixels(id, s.bos[id], s.images[s.bos[id].dma], s.memory[id]);
    GoodCopied(s, s', id);
  }

  ghost predicate WriteBackOf(s: Snap, s': Snap, id: nat, ok: bool) {
    && id in s.bos && id in s.memory && s.bos[id].dma in s'.images
    && s' == s.(images := s.images[s.bos[id].dma := s'.images[s.bos[id].dma]], failed := s'.failed)
    && StagingOk(s.bos[id].geo, s.memory[id], s.bos[id].coherent)
    && (ok ==> s'.images[s.bos[id].dma] == PixelsOf(s.bos[id].geo, s.memory[id].dev))
  }

  lemma GoodWriteBack(s: Snap, s': Snap, id: nat, ok: bool)
    requires Good(s) && id in s.bos && s.bos[id].img && id in s.memory && s.bos[id].dma in s.images
    requires s.bos[id].dma in s'.images && IsImage(s.bos[id].geo, s'.images[s.bos[id].dma])
    requires s' == s.(images := s.images[s.bos[id].dma := s'.images[s.bos[id].dma]], failed := s'.failed)
    requires StagingOk(s.bos[id].geo, s.memory[id], s.bos[id].coherent)
    requires IsImage(s.bos[id].geo, s.images[s.bos[id].dma])
    requires CanCopy(CopyJob(false, id, s.bos[id]), s.images[s.bos[id].dma], s.memory[id])
    requires ok ==> s'.images[s.bos[id].dma]
                    == WrittenBack(CopyJob(false, id, s.bos[id]), s.images[s.bos[id].dma], s.memory[id])
    ensures Good(s') && WriteBackOf(s, s', id, ok)
  {
    WriteBackPixels(id, s.bos[id], s.images[s.bos[id].dma], s.memory[id]);
    ImagesSameShape(s.bos[id].geo, s.images[s.bos[id].dma], s'.images[s.bos[id].dma]);
    GoodNewImage(s, s'.(failed := s.failed), s.bos[id].dma, s'.images[s.bos[id].dma]);
    GoodFailed(s'.(failed := s.failed), s');
  }

  /** New contents of one buffer's staging memory. */
  lemma GoodCopied(s: Snap, s': Snap, id: nat)
    requires Good(s) && id in s.bos && s.bos[id].img && s' == s.(memory := s'.memory, failed := s'.failed)
    requires OnlyMemory(s.memory, s'.memory, id) && id in s'.memory
    requires StagingOk(s.bos[id].geo, s'.memory[id], s.bos[id].coherent)
    ensures Good(s') && OnlyAt(s, s', id)
  {
    assert BoOk(s, id);
    assert BoOk(s', id);
    GoodOnlyAt(s, s', id);
  }

  lemma GoodFailed(s: Snap, s': Snap)
    requires Good(s) && s' == s.(failed := s'.failed)
    ensures Good(s') && Abs(s') == Abs(s).(failed := s'.failed)
  {
    forall j | j in s'.bos ensures BoOk(s', j) && AbsBuf(s', j) == AbsBuf(s, j) {
      assert BoOk(s, j);
    }
  }
}
