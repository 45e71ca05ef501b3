/** The Vulkan driver and the kernel as this backend uses them. Every call may fail;
    what a call demands of its caller is a precondition, so code that verifies against
    this class never re-records a pending command buffer, submits a fence in use,
    destroys an object twice or destroys one in flight (sections 6.1, 7.3 and "Host
    Access to Device Memory Objects" of the Vulkan 1.3 specification). */
module VulkanDriver {
  import opened ForeignCalls
  import opened MemoryTypes
  import opened PixelLayout

  /** What a buffer (or the process, owner 0) can own one of. */
  datatype Kind =
    | BoDescriptor | DupDescriptor
    | ImageObject | ImageMemory | StagingBuffer | StagingMemory
    | CommandPool | CommandBufferObject | FenceObject

  /** Mapped staging memory: what the device sees and what the CPU sees. */
  datatype Memory = Memory(dev: seq<byte>, host: seq<byte>, coherent: bool, unflushed: bool)

  datatype CommandBuffer = Initial | Recording | Executable | Pending | Invalid

  datatype FenceState = Unsignalled | InUse | Signalled

  /** The recorded copy between a buffer's image and its staging memory. */
  datatype Job = Job(toStaging: bool, owner: nat, dma: nat, geo: Geo, rowLength: nat)

  predicate IsMemory(m: Memory, size: nat, coherent: bool) {
    |m.dev| == |m.host| == size && m.coherent == coherent && (coherent ==> m.host == m.dev)
  }

  ghost predicate OnlyMemory(before: map<nat, Memory>, after: map<nat, Memory>, owner: nat) {
    && before.Keys <= after.Keys <= before.Keys + {owner}
    && forall k :: k in before && k != owner ==> after[k] == before[k]
  }

  function Flushed(m: Memory): Memory {
    m.(dev := m.host, unflushed := false)
  }

  function Written(m: Memory, off: nat, b: byte): Memory
    requires off < |m.host| && off < |m.dev|
  {
    if m.coherent then m.(host := m.host[off := b], dev := m.dev[off := b])
    else m.(host := m.host[off := b], unflushed := true)
  }

  /** What an invalidation may leave: the CPU sees what the device sees, but anything where the CPU wrote
      and nobody flushed. */
  predicate Invalidated(m: Memory, m': Memory) {
    && m'.dev == m.dev && m'.coherent == m.coherent && !m'.unflushed && |m'.host| == |m.dev|
    && (!m.unflushed ==> m'.host == m.dev)
  }

  predicate CanCopy(j: Job, img: Image, m: Memory) {
    && j.geo.bpp > 0 && j.geo.width <= j.rowLength && 0 < j.rowLength
    && IsImage(j.geo, img)
    && |m.dev| == |m.host| && (m.coherent ==> m.host == m.dev)
    && RegionFits(j.geo, j.rowLength, |m.dev|)
  }

  /** The memory after an image-to-staging copy. */
  function ReadBack(j: Job, img: Image, m: Memory): Memory
    requires CanCopy(j, img, m)
  {
    var dev := CopyImageToBuffer(j.geo, j.rowLength, img, m.dev);
    m.(dev := dev, host := if m.coherent then dev else m.host)
  }

  /** The image after a staging-to-image copy. */
  function WrittenBack(j: Job, img: Image, m: Memory): Image
    requires CanCopy(j, img, m)
  {
    CopyBufferToImage(j.geo, j.rowLength, m.dev)
  }

  class Driver {
    const calls: Calls
    var live: set<(nat, Kind)>    // the objects and descriptors that exist, by owner
    var images: map<nat, Image>   // the pixels behind each dma-buf
    var memory: map<nat, Memory>  // staging memory, by owner
    var cb: CommandBuffer
    var fence: FenceState
    var job: Job
    var hung: bool                // a submitted copy was given up on
    ghost var submits: nat

    constructor (images: map<nat, Image>)
      ensures live == {} && this.images == images && memory == map[]
      ensures cb == Initial && fence == Unsignalled && !hung && submits == 0 && fresh(calls) && calls.failed == 0
    {
      calls := new Calls();
      live, this.images, memory := {}, images, map[];
      cb, fence, hung := Initial, Unsignalled, false;
      job := Job(true, 0, 0, Geo(0, 0, 0, 0), 0);
      submits := 0;
    }

    // ---- objects and descriptors ----

    /** A second object while the first is live would lose the first one's handle. */
    method Create(owner: nat, kind: Kind) returns (ok: bool)
      requires (owner, kind) !in live
      modifies `live, calls
      ensures calls.failed == old(calls.failed) + if ok then 0 else 1
      ensures live == if ok then old(live) + {(owner, kind)} else old(live)
    {
      ok := *;
      calls.Count(ok);
      if ok { live := live + {(owner, kind)}; }
    }

    method Destroy(owner: nat, kind: Kind)
      requires (owner, kind) in live
      requires cb == Pending && !hung ==> owner != job.owner
      modifies `live
      ensures live == old(live) - {(owner, kind)}
    {
      live := live - {(owner, kind)};
    }

    /** Importing the dma-buf consumes the duplicated descriptor on success only. */
    method ImportMemory(owner: nat) returns (ok: bool)
      requires (owner, DupDescriptor) in live && (owner, ImageMemory) !in live
      modifies `live, calls
      ensures calls.failed == old(calls.failed) + if ok then 0 else 1
      ensures live == if ok then old(live) - {(owner, DupDescriptor)} + {(owner, ImageMemory)} else old(live)
    {
      ok := *;
      calls.Count(ok);
      if ok { live := live - {(owner, DupDescriptor)} + {(owner, ImageMemory)}; }
    }

    /** Memory of a host-visible type: coherent if the type is. */
    method AllocateStaging(owner: nat, size: nat, t: MemoryType) returns (ok: bool)
      requires (owner, StagingMemory) !in live && t.hostVisible
      modifies `live, `memory, calls
      ensures calls.failed == old(calls.failed) + if ok then 0 else 1
      ensures live == if ok then old(live) + {(owner, StagingMemory)} else old(live)
      ensures OnlyMemory(old(memory), memory, owner)
      ensures ok ==> owner in memory && IsMemory(memory[owner], size, t.hostCoherent) && !memory[owner].unflushed
    {
      ok := *;
      calls.Count(ok);
      if ok {
        live := live + {(owner, StagingMemory)};
        var dev := Garbage(size);
        var host := Garbage(size);
        memory := memory[owner := Memory(dev, if t.hostCoherent then dev else host, t.hostCoherent, false)];
      }
    }

    static method Garbage(size: nat) returns (s: seq<byte>)
      ensures |s| == size
    {
      s := [];
      while |s| < size
        invariant |s| <= size
      {
        var b: byte := *;
        s := s + [b];
      }
    }

    static method GarbageImage(g: Geo) returns (img: Image)
      ensures IsImage(g, img)
    {
      img := [];
      while |img| < g.height
        invariant |img| <= g.height
        invariant forall y :: 0 <= y < |img| ==> IsRow(g, img[y])
      {
        var row: seq<Texel> := [];
        while |row| < g.width
          invariant |row| <= g.width
          invariant forall x :: 0 <= x < |row| ==> |row[x]| == g.bpp
        {
          var t := Garbage(g.bpp);
          row := row + [t];
        }
        img := img + [row];
      }
      RowsAt(g, img, g.height);
    }

    /** A call of which only the answer matters here. */
    method Ask() returns (ok: bool)
      modifies calls
      ensures calls.failed == old(calls.failed) + if ok then 0 else 1
    {
      ok := *;
      calls.Count(ok);
    }

    /** The memory types a staging buffer may have. A driver that offers no cached system memory for it
        counts as one that failed. */
    method BufferTypes(types: seq<MemoryType>) returns (bits: set<nat>)
      modifies calls
      ensures calls.failed == old(calls.failed) + if OffersStaging(types, bits) then 0 else 1
    {
      bits := *;
      calls.Count(OffersStaging(types, bits));
    }

    // ---- mapped memory ----

    /** Undefined for a range the CPU wrote and did not flush. */
    method Invalidate(owner: nat) returns (ok: bool)
      requires (owner, StagingMemory) in live && owner in memory
      modifies `memory, calls
      ensures calls.failed == old(calls.failed) + if ok then 0 else 1
      ensures OnlyMemory(old(memory), memory, owner) && owner in memory
      ensures ok ==> Invalidated(old(memory)[owner], memory[owner])
      ensures !ok ==> memory == old(memory)
    {
      ok := *;
      calls.Count(ok);
      if ok {
        var m := memory[owner];
        var view := m.dev;
        if m.unflushed { view := Garbage(|m.dev|); }
        memory := memory[owner := m.(host := view, unflushed := false)];
      }
    }

    method Flush(owner: nat) returns (ok: bool)
      requires (owner, StagingMemory) in live && owner in memory
      modifies `memory, calls
      ensures calls.failed == old(calls.failed) + if ok then 0 else 1
      ensures memory == if ok then old(memory)[owner := Flushed(old(memory)[owner])] else old(memory)
    {
      ok := *;
      calls.Count(ok);
      if ok { memory := memory[owner := Flushed(memory[owner])]; }
    }

    /** The CPU stores a byte through the mapping. */
    method CpuStore(owner: nat, off: nat, b: byte)
      requires (owner, StagingMemory) in live && owner in memory
      requires off < |memory[owner].host| && off < |memory[owner].dev|
      modifies `memory
      ensures memory == old(memory)[owner := Written(old(memory)[owner], off, b)]
    {
      memory := memory[owner := Written(memory[owner], off, b)];
    }

    // ---- the copy ----

    predicate SharedLive()
      reads `live
    {
      (0, CommandPool) in live && (0, CommandBufferObject) in live && (0, FenceObject) in live
    }

    predicate BufferLive(owner: nat)
      reads `live
    {
      && (owner, ImageObject) in live && (owner, ImageMemory) in live
      && (owner, StagingBuffer) in live && (owner, StagingMemory) in live
    }

    method ResetCommandBuffer() returns (ok: bool)
      requires SharedLive() && cb != Pending
      modifies `cb, calls
      ensures calls.failed == old(calls.failed) + if ok then 0 else 1
      ensures cb == if ok then Initial else old(cb)
    {
      ok := *;
      calls.Count(ok);
      if ok { cb := Initial; }
    }

    method BeginCommandBuffer() returns (ok: bool)
      requires SharedLive() && cb == Initial
      modifies `cb, calls
      ensures calls.failed == old(calls.failed) + if ok then 0 else 1
      ensures cb == if ok then Recording else Initial
    {
      ok := *;
      calls.Count(ok);
      if ok { cb := Recording; }
    }

    ghost predicate Copyable(j: Job)
      reads `images, `memory
    {
      && j.dma in images && j.owner in memory
      && CanCopy(j, images[j.dma], memory[j.owner])
    }

    method RecordCopy(j: Job)
      requires SharedLive() && BufferLive(j.owner) && cb == Recording && Copyable(j)
      modifies `job
      ensures job == j
    {
      job := j;
    }

    method EndCommandBuffer() returns (ok: bool)
      requires SharedLive() && cb == Recording
      modifies `cb, calls
      ensures calls.failed == old(calls.failed) + if ok then 0 else 1
      ensures cb == if ok then Executable else Invalid
    {
      ok := *;
      calls.Count(ok);
      cb := if ok then Executable else Invalid;
    }

    method QueueSubmit() returns (ok: bool)
      requires SharedLive() && BufferLive(job.owner) && cb == Executable && fence == Unsignalled
      modifies `cb, `fence, `submits, calls
      ensures calls.failed == old(calls.failed) + if ok then 0 else 1
      ensures ok ==> cb == Pending && fence == InUse && submits == old(submits) + 1
      ensures !ok ==> cb == old(cb) && fence == old(fence) && submits == old(submits)
    {
      ok := *;
      calls.Count(ok);
      if ok {
        cb, fence := Pending, InUse;
        submits := submits + 1;
      }
    }

    /** Success: the copy is done. Failure (time-out, device loss): it may have done any
        part of its work and may still be in flight. What it does after that is not part of this call: for
        the image it is the write of another user, for the staging memory of a buffer that no later
        lock will show it does not matter. */
    method WaitForFence() returns (ok: bool)
      requires SharedLive() && cb == Pending && fence == InUse && Copyable(job)
      modifies `cb, `fence, `images, `memory, `hung, calls
      ensures calls.failed == old(calls.failed) + if ok then 0 else 1
      ensures ok ==> cb == Invalid && fence == Signalled && hung == old(hung)
      ensures !ok ==> cb == Pending && hung
      ensures ok && job.toStaging ==>
                images == old(images)
                && memory == old(memory)[job.owner := ReadBack(job, old(images)[job.dma], old(memory)[job.owner])]
      ensures ok && !job.toStaging ==>
                memory == old(memory)
                && images == old(images)[job.dma := WrittenBack(job, old(images)[job.dma], old(memory)[job.owner])]
      ensures !ok && job.toStaging ==>
                images == old(images) && OnlyMemory(old(memory), memory, job.owner) && job.owner in memory
                && var m, m' := old(memory)[job.owner], memory[job.owner];
                   m'.unflushed == m.unflushed && IsMemory(m', |m.dev|, m.coherent)
      ensures !ok && !job.toStaging ==>
                memory == old(memory) && job.dma in images
                && images == old(images)[job.dma := images[job.dma]] && IsImage(job.geo, images[job.dma])
    {
      ok := *;
      calls.Count(ok);
      var m := memory[job.owner];
      if ok {
        cb, fence := Invalid, Signalled;
        if job.toStaging {
          memory := memory[job.owner := ReadBack(job, images[job.dma], m)];
        } else {
          images := images[job.dma := WrittenBack(job, images[job.dma], m)];
        }
      } else {
        hung := true;
        if job.toStaging {
          var dev := Garbage(|m.dev|);
          memory := memory[job.owner := m.(dev := dev, host := if m.coherent then dev else m.host)];
        } else {
          var img := GarbageImage(job.geo);
          images := images[job.dma := img];
        }
      }
    }

    method ResetFence() returns (ok: bool)
      requires SharedLive() && fence == Signalled
      modifies `fence, calls
      ensures calls.failed == old(calls.failed) + if ok then 0 else 1
      ensures fence == if ok then Unsignalled else Signalled
    {
      ok := *;
      calls.Count(ok);
      if ok { fence := Unsignalled; }
    }
  }
}
