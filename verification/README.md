# Verified models of waydroid-nvidia

A Dafny 4.11 project that models the parts of waydroid-nvidia where most of its state, arithmetic and
failure handling is, and proves what each of them promises. `dafny verify dfyconfig.toml` checks all of it.

## What is modelled

Calls into foreign code (the Vulkan driver, the file system) may fail at any point. A ghost count of the failed ones
(`ForeignCalls`) lets each operation say both what holds whatever fails and what happens when nothing does: an
operation that could succeed then does succeed. Claims about results name the literal values of the formats (words,
bytes, modes, property lines) rather than the constants the operations use.

**CPU locks of block-linear buffers** (`PixelLayout`, `VulkanDriver`, `MemoryTypes`, `TiledLock`,
`LinearBuffer`, `LockRuns`; gralloc backend). `TiledLock.Gralloc` is the backend's state: buffers with their
cached image and staging copy, the shared command buffer and fence, the two sticky failure states and the
process-wide lock. `VulkanDriver.Driver` is everything foreign: every call may fail, and what the Vulkan
specification asks of a caller is a precondition, so a backend that verifies never re-records a pending command
buffer, submits a fence in use, frees an object twice or frees one in flight. `LinearBuffer` says what locks
promise, as a state machine over images and views. Every call of the backend is proved to be a step of it, and any
sequence of calls a run of it (`LockRuns.Replay`). In every run, whatever fails and whatever is done with other
buffers, a dma-buf whose own users keep to the gralloc rules cannot be told from plain linear memory that a
successful write-unlock commits and any other end of a session rolls back (`LinearBuffer.RunIsPlain`). A failed
queue submission is taken to leave all state as it was.

**Allocation** (`Modifiers`, `Allocation`, `PlaneLayout`; same file): the block-height limit, the two modifier
filters (the second one compacts its array in place), the memory type, the layout guard and its link to the
lock's guard, the release of every transient handle, and the placement of planes.

**The seccomp filter** (`Seccomp`): the assembler with its back-patched jump, an interpreter for the programs,
and the proof that the assembled program dispatches on the architecture and then is that policy.

**The tiers patcher** (`ModArith`, `TierHash`, `Base64`, `TierRewrite`): extended Euclid, the length recurrence
and its inverse, the hash, the base64 pair, and the in-place pass over the text.

**Driver closure and properties** (`Strings`, `HostClosure`, `ModeProperties`, `UserProperties`, `DriverModes`): the
worklist over DT_NEEDED names, and the property generator, followed by the user's own entries, against the check at
container start.

**Backup, install, restore** (`Disk`, `Bundle`): a file system whose every call may fail, at which the process may
be killed, and which a power loss may leave in any state the flushes so far allow: files and directories whose
entries were not flushed may be gone, and removed files may be back.

**The fence producer** (`FenceProducer`): every interleaving of the critical sections of main and the watchdog.

**The current EGL binding** (`EglBinding`) and **frame accounting** (`FrameStats`).

## What does not hold as the code or its comments say

- The comment at nvidia_gbm_wrapper.c:1677-1678 says a read-only lock may do anything to the staging copy because
  the next lock copies in afresh. With staging memory that is not coherent, bytes the CPU stored and nobody
  flushed make the next lock's invalidation undefined. `StaleLockRun` is such a run, for every non-empty image, which
  the driver's contract allows (`DriverAllowsStale`), and `LockPromise` gives the exact condition over all runs, in terms
  of the operations made on the buffer.
- The lock's guard multiplies width and bytes per pixel in 32 bits (nvidia_gbm_wrapper.c:1601). It means "a row
  fits" exactly for rows under 4 GiB (`GuardExactly`); the allocator hands out no others (`Alloc`).
- A `[properties]` entry matches every line in which `key=` occurs anywhere, so an accepted key such as `egl` takes
  `ro.hardware.egl` away and the container refuses to start (`SuffixKeyBreaksStart`). The patch shows Waydroid's loop
  only up to its match. Whatever follows, the start check passes if no entry is mentioned in a line of the mode
  (`ModeFilePasses`); for each of three ways to write the rest (drop all matches, pop while enumerating, replace in
  place) `PassesExactly` says exactly when it passes.
- The watchdog marks the producer failed when a timed wait reports its time-out after main has released the
  fence: release() can then return false although no fence was forced and none failed (`LateWakeSpoilsResult`);
  `ReleaseResult` is exact.
- The plane layout's 64-bit sums can wrap for plane sizes near 2^64 (`WrapOverlaps`); its result is usable exactly
  when they do not (`GoodExactly`).
- restore_set removes a target without flushing its directory, so a power loss after it has returned may bring the
  removed file back (`UnlinkTarget`). What of a finished restore survives a power loss is exactly what `Lasts` says,
  which can be read off the state before it, the backup's record and the order of the targets (`RestoreSet`).
- backup_set makes the backup directory and never flushes the directory that holds it (bundle.py:89), so a power loss
  may take a finished backup (`BackupSet`); a backup survives every power loss exactly when no directory of its
  path has an unflushed entry (`BackupSurvives`). atomic_write has the same gap for parents it has to make: the file
  it wrote lasts exactly if its directory was there before and no entry of its path was unflushed (`AtomicWrite`).
- The filter's length is passed to the kernel in 16 bits (appsandbox.cpp:115). A filter is installed as built exactly up
  to 4096 instructions (`BuiltIsInstallable`); of one of 65536 or more the kernel gets the length modulo 65536, and
  `CutExactly` says exactly when it accepts that. `LongFilterIsCut` is a filter that is cut and accepted.

## Model

| member | source | states |
|---|---|---|
| PixelLayout.ReadBackShowsImage | nvidia-prolapse/gralloc/nvidia_gbm_wrapper.c:1531-1542 | copying an image to a staging buffer of row length stride / bpp puts every pixel where a linear view of that stride has it, for any earlier buffer contents |
| PixelLayout.WriteBackStoresView | nvidia-prolapse/gralloc/nvidia_gbm_wrapper.c:1531-1542 | the copy back stores exactly the pixels of the linear view; padding never reaches the image |
| PixelLayout.StoreThroughView | nvidia-prolapse/gralloc/nvidia_gbm_wrapper.c:1420-1421 | a byte stored at y * stride + x * bpp + i changes byte i of pixel (x, y) and nothing else; a byte stored in the padding changes no pixel |
| PixelLayout.PixelsAre | nvidia-prolapse/gralloc/nvidia_gbm_wrapper.c:1234-1246 | byte k of pixel (x, y) of a view is its byte y * stride + x * bpp + k |
| MemoryTypes.PickStaging | nvidia-prolapse/gralloc/nvidia_gbm_wrapper.c:1437-1459 | the first coherent cached system memory type, else the first cached one; one is found exactly if some allowed type is host-visible, cached and not device-local |
| TiledLock.GuardExactly | nvidia-prolapse/gralloc/nvidia_gbm_wrapper.c:1598-1611 | the 32-bit guard means "whole pixels and a row fits" for every stride if and only if width * bpp is below 2^32 |
| TiledLock.Gralloc.XferReady | nvidia-prolapse/gralloc/nvidia_gbm_wrapper.c:1257-1303 | the shared pool, command buffer and fence are made once or the context fails for good; ready exactly in state 1, in which all three are live; keeps the invariant that a live context has no pending copy and an unsignalled fence |
| TiledLock.Gralloc.ReleaseTiled | nvidia-prolapse/gralloc/nvidia_gbm_wrapper.c:1305-1322 | every object the buffer owns is destroyed exactly once and every handle is null after it, from any partial set-up |
| TiledLock.Gralloc.SetupImage | nvidia-prolapse/gralloc/nvidia_gbm_wrapper.c:1326-1418 | under every failure the live objects are exactly the handles it returns, and the duplicated descriptor is consumed by the driver or closed; it succeeds exactly if no call fails |
| TiledLock.Gralloc.SetupStaging | nvidia-prolapse/gralloc/nvidia_gbm_wrapper.c:1420-1482 | on success mapped staging memory of the wanted size with no unflushed write; on failure the live objects are exactly the handles it returns; it succeeds exactly if no call fails |
| TiledLock.Gralloc.SetupAll | nvidia-prolapse/gralloc/nvidia_gbm_wrapper.c:1326-1492 | all of image, image memory, staging buffer, staging memory and pointer, or none, under every pattern of failures; all exactly if no call fails |
| TiledLock.Gralloc.RunCopy | nvidia-prolapse/gralloc/nvidia_gbm_wrapper.c:1495-1596 | it succeeds exactly if no call fails, with one submission; a finished copy has moved the pixels and leaves the command buffer idle and the fence unsignalled; a copy given up on kills the context; a failure without that changed nothing |
| TiledLock.Gralloc.CopyTiled | nvidia-prolapse/gralloc/nvidia_gbm_wrapper.c:1495-1596 | the same in terms of the buffer: after a copy in, the device side holds the image's pixels; after a copy out, the image holds the staging pixels; the invariant is kept |
| TiledLock.Gralloc.MapTiled | nvidia-prolapse/gralloc/nvidia_gbm_wrapper.c:1598-1667 | every outcome is a lock step of LinearBuffer: success submits one copy and shows the image's current pixels unless stores are left unflushed in non-coherent staging; EINVAL exactly for a failed guard; a locked buffer is refused; nothing is submitted once the context has failed; while no call fails the outcome is settled: EINVAL, ENODEV, EBUSY, EIO for guard, device, locked buffer and failed context, in this order, and otherwise the lock succeeds |
| TiledLock.Gralloc.UnmapTiled | nvidia-prolapse/gralloc/nvidia_gbm_wrapper.c:1669-1714 | every outcome is an unlock step: with WRITE (bit 1) in either flag set, while no call fails and the context has not failed, one copy is submitted and the image then holds exactly the view's pixels; without WRITE no pixel changes and nothing is submitted; the buffer is unlocked either way |
| TiledLock.Gralloc.Free | nvidia-prolapse/gralloc/nvidia_gbm_wrapper.c:1176-1193 | a free step of LinearBuffer, locked or not, after which no object or descriptor of the buffer is live |
| TiledLock.Gralloc.Import | nvidia-prolapse/gralloc/nvidia_gbm_wrapper.c:1132-1171 | a new buffer over the dma-buf with nothing set up exactly if no call fails, or no change at all, for every geometry the lock's guard refuses and every one it lets through that is the image's own |
| TiledLock.Gralloc.CpuStore | nvidia-prolapse/gralloc/nvidia_gbm_wrapper.c:1210-1251 | a CPU store through a held view is a store step of LinearBuffer and keeps the backend's invariant |
| TiledLock.LockSucceeds | nvidia-prolapse/gralloc/nvidia_gbm_wrapper.c:1634-1652 | a copied-in and, where needed, invalidated staging copy makes taking the lock a successful lock step |
| TiledLock.WriteUnlockStep | nvidia-prolapse/gralloc/nvidia_gbm_wrapper.c:1690-1710 | flush, copy out and unlock together are an unlock step, for every place where they can fail |
| LinearBuffer.LockPromise | nvidia-prolapse/gralloc/nvidia_gbm_wrapper.c:1634-1652 | after any run from an empty backend, every successful lock of a buffer shows the image's pixels if and only if its staging memory is coherent or it has no store that neither a flushing unlock nor a later lock has followed |
| LinearBuffer.UnflushedExactly | nvidia-prolapse/gralloc/nvidia_gbm_wrapper.c:1634-1714 | in every run, non-coherent staging holds unflushed stores exactly when the buffer's operations so far say so |
| LinearBuffer.StaleLockRun | nvidia-prolapse/gralloc/nvidia_gbm_wrapper.c:1674-1690 | for every non-empty image there is a run of import, read lock, store and read unlock after which a lock shows what the image never held |
| TiledLock.DriverAllowsStale | nvidia-prolapse/gralloc/nvidia_gbm_wrapper.c:1634-1652 | for every geometry, image and staging contents of non-coherent memory: after a CPU store that nobody flushed and a fresh copy in, the driver's contract allows an invalidation that leaves the CPU another view than the image |
| TiledLock.InvalidationShowsExactly | nvidia-prolapse/gralloc/nvidia_gbm_wrapper.c:1640-1652 | all outcomes the driver's contract allows for an invalidation show what was copied in if and only if no CPU write was left unflushed |
| LinearBuffer.PixelsKept | nvidia-prolapse/gralloc/nvidia_gbm_wrapper.c:1674-1690 | between two points of any run with no writer of a dma-buf between them, the dma-buf keeps its pixels, whatever is locked, stored to, unlocked without WRITE, freed or written elsewhere |
| LinearBuffer.FailureIsSticky | nvidia-prolapse/gralloc/nvidia_gbm_wrapper.c:1261-1303 | once the copy context has failed no later lock of any buffer succeeds and no later unlock stores, over every run |
| LinearBuffer.SessionView | nvidia-prolapse/gralloc/nvidia_gbm_wrapper.c:1241-1246 | through a lock session, whatever happens to other buffers, the view is what the lock showed with this session's stores applied |
| LinearBuffer.WriteSession | nvidia-prolapse/gralloc/nvidia_gbm_wrapper.c:1234-1246 | lock, stores and write-unlock leave the image with exactly those stores applied; pixels not stored to keep their value |
| LinearBuffer.RunIsPlain | nvidia-prolapse/gralloc/nvidia_gbm_wrapper.c:1210-1251 | for each dma-buf by itself, in every run over any number of buffers, with locks and write-backs failing anywhere and other dma-bufs used in any way: if its own users keep the rules, its image and every defined view show at every moment what plain linear memory would hold that a successful write-unlock commits and a failed one, a read unlock or a free rolls back |
| LinearBuffer.FailedUnlockRollsBack | nvidia-prolapse/gralloc/nvidia_gbm_wrapper.c:1690-1710 | a failed write-back that the context survives loses the session's stores and nothing else; staging that is coherent or was flushed is as good as before |
| LockRuns.Serve | nvidia-prolapse/gralloc/nvidia_gbm_wrapper.c:1598-1714 | every call by a user, with the driver failing anywhere, is a step of LinearBuffer or nothing, keeps the backend's invariant, changes a pixel only if it unlocks with WRITE or is another user's write, and submits no copy after the context has failed; while no call fails the step is the one the call asks for, with the outcome the state settles |
| LockRuns.Replay | nvidia-prolapse/gralloc/nvidia_gbm_wrapper.c:1132-1714 | any sequence of calls is a run of LinearBuffer; at every point of it every dma-buf whose users kept the rules so far shows what plain linear memory would hold, whatever happened to the others; a failed context stays failed and never submits again; while no call fails every call of the sequence is answered by the step it asks for |
| Modifiers.CeilLog2Meaning | nvidia-prolapse/gralloc/nvidia_gbm_wrapper.c:722-728 | k is at most the number of halvings exactly when k = 0 or 2^(k-1) is below the number of GOB rows |
| Modifiers.ModifierFitsHeight | nvidia-prolapse/gralloc/nvidia_gbm_wrapper.c:711-729 | accepts a modifier of vendor 3 with the block-linear bit and GOB kind 0 or 2 exactly when its block exponent k is 0 or half a block, 8 * 2^(k-1) rows, is lower than the image; accepts every other modifier |
| Modifiers.FitsMonotone | nvidia-prolapse/gralloc/nvidia_gbm_wrapper.c:711-729 | what is accepted for a height is accepted for every greater one |
| Allocation.FirstFilter | nvidia-prolapse/gralloc/nvidia_gbm_wrapper.c:788-815 | the array holds exactly the candidates in order, and the storage and color flags say whether all of them have the feature |
| Allocation.CandidatesExact | nvidia-prolapse/gralloc/nvidia_gbm_wrapper.c:798-805 | a listed modifier is a candidate if and only if it is listed, not the invalid one, LINEAR exactly if wanted, of one plane, sampled, transfer source and destination and (unless LINEAR) colour attachment, and its blocks fit the height |
| Allocation.ChooseModifiers | nvidia-prolapse/gralloc/nvidia_gbm_wrapper.c:788-854 | the choice is never a mixture of layouts, every requested usage bit is supported by every chosen modifier, and it is empty exactly when neither the filter nor the LINEAR fallback finds one |
| Allocation.SecondFilter | nvidia-prolapse/gralloc/nvidia_gbm_wrapper.c:868-912 | the in-place compaction leaves exactly the modifiers the image query accepts |
| Allocation.KeptSublist | nvidia-prolapse/gralloc/nvidia_gbm_wrapper.c:868-912 | what is kept is the sublist at the positions whose query succeeds, is exportable and allows the extent, in increasing order |
| Allocation.PickMemory | nvidia-prolapse/gralloc/nvidia_gbm_wrapper.c:979-1004 | the first allowed coherent host type for LINEAR, cached too if the CPU reads often, else the first device-local one unless the CPU reads often; for other images the first device-local one; one is found exactly if there is one |
| Allocation.LayoutPassesGuard | nvidia-prolapse/gralloc/nvidia_gbm_wrapper.c:1062-1070 | a layout that passes the allocator's check passes the lock's 32-bit guard on import and has rows under 4 GiB |
| Allocation.IsComplete | nvidia-prolapse/gralloc/nvidia_gbm_wrapper.c:788-912 | the image may have exactly the suitable ones of the first 64 listed modifiers that the image query accepts for its usage, and is used for colour and storage exactly if all suitable ones allow it; without a suitable one the source-built driver takes LINEAR alone |
| Allocation.Alloc | nvidia-prolapse/gralloc/nvidia_gbm_wrapper.c:731-1130 | succeeds exactly if no call fails, format and extent are real, a modifier passes, there is memory of a fitting type and the reported layout can be used; every modifier of the image is listed, of one plane, fits the height, supports every usage and is accepted by the image query; the memory type is the first that fits; if mappable it passes the lock's guard; only the exported descriptor stays live, and nothing on failure, which is EINVAL if no call failed |
| PlaneLayout.IdealValid | nvidia-prolapse/gralloc/nvidia_gbm_wrapper.c:1952-1967 | without a word size each offset is divisible by its plane's alignment (0 meaning none), no lower than requested and without overlap |
| PlaneLayout.IdealLeast | nvidia-prolapse/gralloc/nvidia_gbm_wrapper.c:1952-1967 | no layout that is aligned, no lower than requested and in order puts any plane lower |
| PlaneLayout.Apart | nvidia-prolapse/gralloc/nvidia_gbm_wrapper.c:1952-1967 | any two planes of a valid layout are disjoint, neighbours or not |
| PlaneLayout.PlacedIsIdeal | nvidia-prolapse/gralloc/nvidia_gbm_wrapper.c:1952-1967 | the 64-bit loop computes that placement, and stops exactly when an offset needs more than 32 bits, as long as no sum wraps |
| PlaneLayout.GoodExactly | nvidia-prolapse/gralloc/nvidia_gbm_wrapper.c:1952-1995 | the returned offsets and size are valid, 32-bit and cover every plane and the image if and only if no sum of the ideal placement leaves 64 bits |
| PlaneLayout.RefusesOnlyWhenImpossible | nvidia-prolapse/gralloc/nvidia_gbm_wrapper.c:1957-1961 | whenever the loop refuses, wrapped sums or not, every valid layout has an offset of more than 32 bits |
| PlaneLayout.WrapOverlaps | nvidia-prolapse/gralloc/nvidia_gbm_wrapper.c:1963-1964 | a plane at offset 1 of size 2^64 - 1 makes the next plane land on it: byte 1 belongs to both |
| PlaneLayout.Layout | nvidia-prolapse/gralloc/nvidia_gbm_wrapper.c:1848-1996 | for any number of planes: succeeds exactly when the driver accepts and the loop places every plane; offsets and size are written only then; they are usable exactly if no 64-bit sum wraps, and then no layout a caller may ask for has any plane lower; when the loop refuses, every such layout has an offset of more than 32 bits |
| Seccomp.PrologueDispatches | nvidia-prolapse/probe/appsandbox.cpp:60-66 | with any program behind it, the prologue goes on behind itself for x86_64, as far as its jump says for i386, and traps every other architecture |
| Seccomp.Filter.SetValidateArchitectureJumpTarget | nvidia-prolapse/probe/appsandbox.cpp:68-76 | patches the jump to the current end exactly when the distance fits a byte |
| Seccomp.Filter.BuildAppFilter | nvidia-prolapse/probe/appsandbox.cpp:78-91 | succeeds exactly when the x86_64 policy's length + 3 fits a byte, and then leaves the assembled program |
| Seccomp.Embedded | nvidia-prolapse/probe/appsandbox.cpp:82-89 | a policy that lies anywhere in a program does there what it does alone, up to where its own run leaves it |
| Seccomp.FilterMeaning | nvidia-prolapse/probe/appsandbox.cpp:54-91 | for every call on which its policy's run ends in the policy the assembled program gives that policy's verdict, by architecture, falling off its end being a trap; any other architecture is trapped; every run ends |
| Seccomp.RangeAllowed | nvidia-prolapse/probe/appsandbox.cpp:78-91 | in either half, a policy of two greater-or-equal tests allows exactly the numbers from lo up to below hi (0x7fff0000), traps the others (0x00030000), and traps every architecture but 0xC000003E and 0x40000003 |
| Seccomp.RangeAboveAllowed | nvidia-prolapse/probe/appsandbox.cpp:78-91 | in either half, a policy of two greater-than tests allows exactly the numbers above lo up to hi |
| Seccomp.NumberAllowed | nvidia-prolapse/probe/appsandbox.cpp:78-91 | in either half, a policy that jumps ahead and tests one number allows exactly that system call |
| Seccomp.MaskAllowed | nvidia-prolapse/probe/appsandbox.cpp:78-91 | in either half, a policy that loads any word of the call and tests a mask allows the call exactly if word and mask share a bit, and traps it otherwise |
| Seccomp.StaysEndsWithin | nvidia-prolapse/probe/appsandbox.cpp:82-89 | a policy whose jumps stay within its own length ends within itself on every call |
| Seccomp.BuiltIsInstallable | nvidia-prolapse/probe/appsandbox.cpp:78-116 | a built filter reaches the kernel whole and is accepted exactly when it has at most 4096 instructions; a longer one under 65536 is refused |
| Seccomp.PrimaryExactly | nvidia-prolapse/probe/appsandbox.cpp:78-91 | on an x86_64 call the filter gives the x86_64 policy's verdict for every staying i386 policy if and only if the x86_64 policy's run ends in the policy |
| Seccomp.SecondaryExactly | nvidia-prolapse/probe/appsandbox.cpp:78-91 | on an i386 call the filter gives the i386 policy's verdict if and only if that policy's run ends in the policy |
| Seccomp.CutExactly | nvidia-prolapse/probe/appsandbox.cpp:78-116 | a filter of 65536 instructions or more is accepted, cut to c (its length modulo 65536), if and only if c reaches into the i386 policy and is at most 4096 and the policy's part up to there ends in a return and holds its own jumps |
| Seccomp.LongFilterIsCut | nvidia-prolapse/probe/appsandbox.cpp:115-115 | an i386 policy of 65536 returns gives a filter of which the kernel gets and accepts the first eight instructions |
| TierHash.Inverse | mcpe-vv-module/src/vvpatch.c:64-71 | for every pair the loop yields t with t * a congruent to their greatest common divisor, and so to 1 whenever 1 is their only common divisor; every product and difference is shown to be inside 64 bits |
| TierHash.Pf | mcpe-vv-module/src/vvpatch.c:57-61 | the loop computes the sum of s[i] * 257^i modulo 2^31, and none of its 64-bit sums and products wraps |
| TierHash.PolyFromFront | mcpe-vv-module/src/vvpatch.c:57-61 | the sum is 0 for no byte, and c + 257 times the rest's sum for a byte c in front |
| TierHash.HashFromFront | mcpe-vv-module/src/vvpatch.c:74-87 | the hash of the empty name is R0, and a byte c in front of a name of hash h makes it 257 * h + c + 1 modulo 2^31 |
| TierHash.FirstByteShifts | mcpe-vv-module/src/vvpatch.c:57-61 | two names that differ in their first byte only have hashes that differ by just that difference modulo 2^31 |
| TierHash.DownUp | mcpe-vv-module/src/vvpatch.c:77-82 | stepping the recurrence up and then down is the identity |
| TierHash.DownThenUp | mcpe-vv-module/src/vvpatch.c:77-82 | any number of steps down, undone by as many steps up |
| TierHash.UpThenDown | mcpe-vv-module/src/vvpatch.c:77-82 | any number of steps up, undone by as many steps down |
| TierHash.Calibrator.Calibrate | mcpe-vv-module/src/vvpatch.c:74-80 | the anchor then hashes to its recorded low 31 bits, and the recovered R0 is the only one for which it does; no 32-bit sum and no 64-bit product on the way wraps |
| TierHash.Calibrator.HashCandidates | mcpe-vv-module/src/vvpatch.c:81-87 | the two candidates are exactly the 32-bit values with the hash's low 31 bits |
| TierHash.CalibrateAndCheck | mcpe-vv-module/src/vvpatch.c:122-127 | the self-check never warns for any name and hash, and if one R0 made the whole table, calibrating on any entry recovers it |
| Base64.RoundTrip | mcpe-vv-module/src/vvpatch.c:33-53 | decoding an encoding gives back every byte sequence |
| Base64.JunkIgnored | mcpe-vv-module/src/vvpatch.c:35-35 | non-alphabet bytes inserted anywhere do not change what is decoded |
| Base64.CanonicalText | mcpe-vv-module/src/vvpatch.c:33-53 | the encoder's outputs are exactly the texts that decoding and encoding again leave alone |
| Base64.AlphabetIs | mcpe-vv-module/src/vvpatch.c:33-53 | the 64 letters are A to Z, a to z, 0 to 9, plus and slash, in that order |
| Base64.EncodesAs | mcpe-vv-module/src/vvpatch.c:42-53 | every three bytes give the four letters of their 24 bits in order, a rest of two three letters and one equals sign (61), a rest of one two letters and two |
| Base64.DecodesAs | mcpe-vv-module/src/vvpatch.c:33-41 | four letters give the three bytes of their 24 bits, three give two and two give one, bits counted from the top |
| Base64.B64Decode | mcpe-vv-module/src/vvpatch.c:33-41 | the shifts and the group buffer compute the positional meaning of the alphabet bytes; the terminating NUL still fits the allocation |
| Base64.B64Encode | mcpe-vv-module/src/vvpatch.c:42-53 | the output is the encoding, of length (len + 2) / 3 * 4, inside the allocation |
| TierRewrite.RaiseTiers | mcpe-vv-module/src/vvpatch.c:129-134 | ends on every NUL-terminated text; every digit 1 to 5 behind an occurrence of the key, with spaces and tabs skipped, is then the byte 53, and no other byte of the buffer changes |
| TierRewrite.SameValues | mcpe-vv-module/src/vvpatch.c:129-134 | the edits create and remove no occurrence |
| TierRewrite.NoOverlap | mcpe-vv-module/src/vvpatch.c:129-134 | a later occurrence starts at or behind the place where the search goes on |
| TierRewrite.Idempotent | mcpe-vv-module/src/vvpatch.c:129-134 | a second pass changes nothing |
| HostClosure.IndexCache | waydroid/nvidia_native.py:864-867 | a name resolves to its first cache record of the wanted ABI, and to nothing without one |
| Strings.PathParts | waydroid/nvidia_native.py:875-876 | the base name has no slash and is all of a path without one or what stands behind the last one; the directory is what stands before it |
| HostClosure.Collect | waydroid/nvidia_native.py:884-900 | the worklist ends on every finite cache, cycles included; it finds exactly the reachable libnvidia- names, once each, of version v and at the cache's path; it raises exactly when a reachable name is missing, of another version or unreadable |
| HostClosure.Find | waydroid/nvidia_native.py:856-900 | the ICD first and then exactly the reachable names, no name twice, every name of version v; a result exactly when the ICD is fine and every reachable name is good; in terms of the cache and the files alone: the ICD's real path ends in libEGL_nvidia.so.v, libnvidia-eglcore and libnvidia-glvkspirv of version v are among the names, each name is at its first cache record, is needed by one before it or one of these two, and has all its needs met; each error is raised for its own cause and names it: no ICD, an ICD of another version or gone, an unreadable ICD, or a needed name that is missing, of another version or unreadable |
| ModeProperties.ApplyModeProperties | waydroid/nvidia_native.py:539-545 | the rebuilt list is the other lines in their order followed by the mode's own lines |
| ModeProperties.OthersKept | waydroid/nvidia_native.py:539-545 | lines of no mode key keep their order and content |
| ModeProperties.Idempotent | waydroid/nvidia_native.py:539-545 | applying the mode again changes nothing |
| ModeProperties.CheckBaseProp | waydroid/nvidia_native.py:567-581 | accepts exactly the files whose last line of every mode key has the mode's value, and that have no line of an absent key |
| UserProperties.UnharmedPasses | waydroid/nvidia_native.py:539-581 | for any keys, base lines and user entries of other keys, and any loop body that touches only lines that mention the entry: the generated file passes the start check if no entry is mentioned in a line of the mode |
| UserProperties.PassesExactly | waydroid/0001-lxc-nvidia-native-mounts.patch:191-194 | for each of three ways to finish the loop, the file passes the start check if and only if no entry takes a line of the mode |
| UserProperties.PassesIfUnharmed | waydroid/0001-lxc-nvidia-native-mounts.patch:191-194 | where matches are dropped or replaced, that is if and only if no user key is mentioned in a line of the mode |
| UserProperties.PopLoop | waydroid/0001-lxc-nvidia-native-mounts.patch:193-194 | popping matches while enumerating leaves exactly the lines that are not popped by the recursive definition |
| UserProperties.PoppedIsOdd | waydroid/0001-lxc-nvidia-native-mounts.patch:193-194 | that loop pops a line exactly when it is the first, third, fifth and so on of a row of matching lines |
| UserProperties.ReadingTouches | waydroid/0001-lxc-nvidia-native-mounts.patch:193-194 | each of the three ways touches only lines that mention the entry |
| ModeProperties.MentionIsSuffix | waydroid/0001-lxc-nvidia-native-mounts.patch:192-194 | in a line without a further equals sign, a key is mentioned exactly when it is an ending of the line's key |
| DriverModes.ModeFilePasses | waydroid/nvidia_native.py:515-581 | the same for every mode, every set of user entries check_properties accepts and any such loop body |
| DriverModes.PlainModeFilePasses | waydroid/nvidia_native.py:519-581 | without user entries the generated file of every mode always passes |
| DriverModes.GenerateBaseProp | waydroid/nvidia_native.py:519-545 | for every mode, the file is the lines that start with none of its keys, in order, followed by the mode's literal lines |
| DriverModes.CheckModeFile | waydroid/nvidia_native.py:519-581 | for every mode, the check accepts exactly the files in which the last line that starts with each of the mode's keys is the literal line of the mode, and in which none starts with a key it wants absent |
| DriverModes.SuffixKeyBreaksStart | waydroid/0001-lxc-nvidia-native-mounts.patch:191-194 | in every mode and for each of the three ways to finish the loop, the user key egl is accepted and makes the start check fail |
| Bundle.AtomicWrite | dev/perf/bundle.py:59-85 | it returns exactly if no call fails and the path is not refused; wherever it stops, the target holds its old file or the complete new one, now and after a power loss, and no other file changes; when it returns, the new one, and no temporary file; a power loss then leaves the new one exactly if its directory was there before the call and no entry of its path was unflushed |
| Bundle.EnsureDirs | dev/perf/bundle.py:61-68 | it returns exactly if no call fails; then the directories of the path and no others are added, and exactly those it made are newly unflushed; no file changes, and nothing at all if the directory is there |
| Bundle.UnlinkTarget | dev/perf/bundle.py:126-127 | removal is one step and changes nothing else; right after it a power loss can always bring the file back |
| Bundle.LingersExactly | dev/perf/bundle.py:122-127 | after any part of the loop a removed target can come back exactly if no later target of its directory was written, and it was there or could come back before and no earlier target flushed that |
| Bundle.UnflushedExactly | dev/perf/bundle.py:61-85 | after any part of the loop a directory's entry is unflushed exactly if it was before and no target was written into its parent, or it was missing and no target behind the first one under it was |
| Bundle.WriteAll | dev/perf/bundle.py:122-134 | wherever the loop stops every target holds what it held or what it was to get; it ends if no call fails and no target is refused, and then every target holds what it was to get, and for each target exactly when that survives a power loss, from the state before the loop |
| Bundle.BackupSet | dev/perf/bundle.py:88-104 | never changes a target or an existing backup; while no call fails and no path is refused it returns exactly if the backup is not there and its parent is; when it returns, the backup of exactly what the targets held is complete: a copy of every file, and a manifest of schema 1 with one entry a role; its directory's own entry is unflushed |
| Bundle.BackupSurvives | dev/perf/bundle.py:88-104 | a complete backup is complete after every power loss if and only if no directory of its path has an unflushed entry |
| Bundle.Verify | dev/perf/bundle.py:107-121 | succeeds exactly if no call fails and manifest, roles, paths and every checksum agree, and then gives what the manifest records |
| Bundle.VerifiesIsAgrees | dev/perf/bundle.py:107-121 | what is checked is exactly, over the decoded manifest: schema 1, exactly the targets' roles, every path the target's own and not refused, and for every recorded file a copy whose digest is the recorded one |
| Bundle.RestoreSet | dev/perf/bundle.py:107-127 | a backup whose decoded manifest does not agree with the targets and the digests of the copies changes nothing, and one that does is restored if no call fails; every target holds what it held or what the backup says at every point, and at the end exactly the copy's bytes with the recorded mode and owner, or nothing; for each target, from the state before: a file survives a power loss exactly when every directory of its path was flushed or gets flushed by a target written into its parent (after it was made, if it was missing), an absence exactly when a later target flushes its directory, or nothing was there and nothing could come back |
| Bundle.IntactVerifies | dev/perf/bundle.py:88-121 | a completed backup always verifies and records exactly the originals' existence, bytes, mode, uid and gid |
| Bundle.InstallSet | dev/perf/bundle.py:130-134 | any prefix leaves every target whole, old or new; it ends if no call fails and nothing is refused, and then all are new, the two servers with mode 0755 and the others with 0644, each of the right owner |
| Bundle.Session | dev/perf/bundle.py:59-134 | backup, an install stopped anywhere, and restores stopped anywhere, with power losses between: no target ever holds anything but its original or its new file; a restore that returns gives every target its original existence, bytes, mode and owner, and exactly when that lasts; only a power loss can take the backup, and then no restore returns; with no failed call, refused path or power loss and at least one restore, and a backup directory that can be made, a restore returns |
| FenceProducer.Producer.ReleaseLocked | tools/native-vulkan-fence-latency.c:59-69 | afterwards no fence is active and every attached one has had its one signal call; earlier calls are kept, and there is one more exactly if a fence was active; the two flags are set exactly for a forced and a failed call |
| FenceProducer.Producer.Release | tools/native-vulkan-fence-latency.c:70-77 | no fence is active afterwards, and the result is true exactly if no signal call so far was forced or failed and no timed wait ended late |
| FenceProducer.Producer.Attach | tools/native-vulkan-fence-latency.c:94-107 | succeeds exactly if the kernel made a fence, which then is the only attached one without a signal call |
| FenceProducer.Producer.WakeFromTimedWait | tools/native-vulkan-fence-latency.c:86-88 | woken for any reason but a signal, the watchdog leaves no attached fence without its signal call and release() false for good; a time-out with a fence active only forces, any other end also marks the producer failed |
| FenceProducer.StepKeeps | tools/native-vulkan-fence-latency.c:59-107 | every critical section of either thread keeps the invariant that ties flags, fences and signal calls together |
| FenceProducer.OneAttemptEach | tools/native-vulkan-fence-latency.c:59-107 | in every interleaving, every attached fence but the active one has had exactly one signal call, in order, and the active one none |
| FenceProducer.NoneLeftAfterJoin | tools/native-vulkan-fence-latency.c:380-388 | when the watchdog is joined no fence is active and each was signalled exactly once |
| FenceProducer.ReleaseResult | tools/native-vulkan-fence-latency.c:70-77 | release() returns true exactly when no fence so far was forced or failed to signal and no timed wait of the run so far ended late |
| FenceProducer.LateExactly | tools/native-vulkan-fence-latency.c:86-88 | the producer is marked by a late wait exactly if some earlier step of the run was a timed wait that ended with no fence active |
| FenceProducer.LateWakeSpoilsResult | tools/native-vulkan-fence-latency.c:86-88 | a run in which release() returns false although every fence was signalled by main and none failed |
| EglBinding.HandleMap.Add | nvidia-prolapse/probe/eglgles.c:84-89 | the table is a map: an entry is replaced or appended, and refused only when the table is full |
| EglBinding.HandleMap.Get | nvidia-prolapse/probe/eglgles.c:90-94 | the linear search is the map's lookup |
| EglBinding.Thread.MakeCurrent | nvidia-prolapse/probe/eglgles.c:171-193 | for every vendor answer the cache equals the vendor's binding after the call, and the vendor pointer is set exactly while a context is current; a proper call that changes something is put to the vendor exactly once and ends as it answers, one that changes nothing succeeds without it, and refused ones report their own error without it |
| EglBinding.Thread.CurrentContext | nvidia-prolapse/probe/eglgles.c:99-99 | the callback answers with the vendor's own current context |
| EglBinding.Thread.CurrentDisplay | nvidia-prolapse/probe/eglgles.c:100-100 | the callback answers with the vendor's own current display |
| EglBinding.Thread.CurrentSurface | nvidia-prolapse/probe/eglgles.c:101-105 | the callback answers with the vendor's own draw surface for 0x3059, its read surface for 0x305A and none for anything else |
| EglBinding.Replay | nvidia-prolapse/probe/eglgles.c:171-193 | over every sequence of calls, on displays the table knows and on others, cache and vendor agree, the vendor's binding is that of the last successful call, and only calls on known displays succeed |
| FrameStats.Deduplicate | dev/perf/metrics.py:36-58 | per window and intended vsync exactly one row is kept: the last in-range row with the greatest (present-valid, completed) |
| FrameStats.DeduplicatedAreFrames | dev/perf/metrics.py:36-58 | the same spelled out on the rows: a frame is kept exactly if a row of it has times in order and in range, by a row no other row of the frame beats, and the last of its kind |
| FrameStats.CollectStreams | dev/perf/metrics.py:62-66 | a window has a stream exactly when one of its rows has a valid presentation time, and the stream is the set of those times |
| FrameStats.GapsConserved | dev/perf/metrics.py:70-80 | scored and excluded intervals together are all gaps of a stream and add up to its whole span |
| FrameStats.ScoreStreams | dev/perf/metrics.py:70-80 | the intervals are exactly the differences of neighbouring presentation times of a window that lie in one active range (all of them without ranges), each counted once, and the excluded ones exactly the others; over all streams they add up to the sum of (stream size - 1) |
| FrameStats.Framestats | dev/perf/metrics.py:36-80 | from the rows: one row per window and frame is kept, rows with impossible times are counted, the intervals are exactly the active differences of neighbouring distinct presentation times of each window, and kept plus excluded ones equal the sum, over the windows that presented, of their times less one |
| FrameStats.CountRefreshes | dev/perf/presentation.py:22-45 | totals are the sums of each pair's own count: the difference of the sequence numbers where both are counted, else the estimate; pairs of one output whose time or counter does not advance are refused and counted; missed plus shown refreshes are the expected ones |
| FrameStats.WholeCounts | dev/perf/presentation.py:22-45 | over a whole capture without estimates and refusals the expected refreshes are the last sequence minus the first, and the intervals span it |

## Left out

- Linear buffers' direct mmap path and the dma-buf sync calls around it (nvg_map_impl, nvg_unmap_impl): single system calls with one error branch each.
- TiledLock.Gralloc.Import: a geometry that passes the lock's guard has to be that of the image behind the dma-buf (Allocation.Alloc proves it of those it hands out), because what a copy between differing shapes does is the driver's; geometries the guard refuses are taken as they are.
- TiledLock.Gralloc.MapTiled: calls are atomic under the process-wide lock; two threads of one process inside the guard checks before that lock are not interleaved, because those checks read only fields set at import.
- The value of the mapping record (address, length) and the logging, device discovery and dlopen around the calls.
- VulkanDriver.Driver.WaitForFence: a copy that was given up on takes effect at the failed wait; pixels it stores later are the write of another user (LinearBuffer.External), which the rules allow, because a write-back is made by the sole holder and no lock succeeds after it.
- Destroying buffers whose copy hung: the ownership claims cover it, the claim that nothing in flight is destroyed is conditional on the context not having failed.
- Allocation.Alloc: what the driver reports of the image (its memory types, which of the listed modifiers it has, its layout) is an input; it is taken to create the image with one of the listed modifiers, as VK_EXT_image_drm_format_modifier says; format lists and sRGB views are not modelled.
- TiledLock.Gralloc.SetupStaging: a driver that offers no cached system memory for the staging buffer counts as a failed call.
- Disk.FileSystem.MkStemp: not finding an unused temporary name counts as a failed call.
- PlaneLayout.Layout: the query image and the final image are two yes-or-no answers of the driver.
- Kernel semantics of seccomp beyond the interpreter (the ordering of several filters, the action of a trap).
- The choice of candidate keys, the JSON text around the tiers table and the APK repacking in vvpatch.c; strtoul on the anchor's hash.
- TierRewrite.StrStr: C's strstr written out as a search from the left.
- HostClosure.Find: parsing of the loader cache and of ELF files, the driver-branch check and the error texts; a path's DT_NEEDED list is an input, and an unreadable file is one that has none.
- UserProperties.PassesExactly: the part of Waydroid's own loop that the patch does not show is one of three readings (see above); values with line breaks are not modelled, since a file is its list of lines.
- DriverModes.ModePairs: whether a native root stages the media component is an input.
- Bundle.EnsureDirs: the owner and mode of directories that are made.
- Bundle.Verify: the JSON text form is an encoder and a decoder that invert each other, and SHA-256 is any function, so a changed file with the same digest would be restored as it is.
- File types other than regular files and symbolic links in paths: one set of paths the checks refuse.
- FenceProducer.Next: the 750 ms deadline; a timed wait may end at any time with any result.
- EglBinding.Thread.MakeCurrent: one vendor, one thread, and the vendor's errors themselves; a failed call is taken to leave the vendor's binding alone.
- FrameStats.Deduplicate: text parsing, so rows that do not parse are not counted, and the flagged-rows counter.
- FrameStats.CountRefreshes: the floating-point estimate of refreshes without a counter is any function of the two times.
- Percentiles and summaries, and the rest of the performance tools.
