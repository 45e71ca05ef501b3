/** What CPU locks of block-linear buffers promise, as a state machine over the
    images behind the dma-bufs and the views that locks hand out; and the proof
    that a dma-buf used by the rules cannot be told from plain linear memory. */
module LinearBuffer {
  import opened PixelLayout

  /** The cached staging memory of a buffer. `unflushed`: the CPU wrote it and no
      flush has followed ("Host Access to Device Memory Objects" in the Vulkan 1.3
      specification: invalidating such a range leaves its contents undefined). */
  datatype Staging = NoStaging | Coherent | NonCoherent(unflushed: bool)

  /** `view`: the pixels the lock's linear view holds. `touched`: stored to since the lock. */
  datatype LockState = Unlocked | Locked(write: bool, touched: bool, view: Image)

  datatype Buf = Buf(dma: nat, geo: Geo, staging: Staging, lock: LockState)

  /** `failed`: the shared copy context is dead (sticky). */
  datatype State = State(images: map<nat, Image>, bufs: map<nat, Buf>, failed: bool)

  datatype Op =
    | Import(id: nat, dma: nat, geo: Geo)
    | Lock(id: nat, write: bool, ok: bool)
    | Store(id: nat, off: nat, b: byte)       // the CPU, through the view
    | Unlock(id: nat, write: bool, ok: bool, flushed: bool)   // flushed: the CPU's stores reached the device
    | Free(id: nat)
    | External(dma: nat, img: Image)          // any other user of the dma-buf

  // ---- one step -----------------------------------------------------------------

  ghost predicate Valid(s: State) {
    forall id :: id in s.bufs ==> s.bufs[id].dma in s.images
  }

  ghost predicate OnlyBuf(s: State, s': State, id: nat) {
    && id in s.bufs && s'.bufs.Keys == s.bufs.Keys
    && s'.bufs[id].dma == s.bufs[id].dma && s'.bufs[id].geo == s.bufs[id].geo
    && forall j :: j in s.bufs && j != id ==> s'.bufs[j] == s.bufs[j]
  }

  ghost predicate OnlyImage(s: State, s': State, dma: nat) {
    && dma in s.images && s'.images.Keys == s.images.Keys
    && forall d :: d in s.images && d != dma ==> s'.images[d] == s.images[d]
  }

  /** Setting staging up chooses the memory; it is then kept until the free. */
  ghost predicate StagingKept(before: Staging, after: Staging) {
    if before.NoStaging? then after in {NoStaging, Coherent, NonCoherent(false)} else after == before
  }

  /** A lock copies the image in afresh and invalidates what the CPU may have cached. */
  ghost predicate LockStep(s: State, s': State, id: nat, write: bool, ok: bool) {
    && OnlyBuf(s, s', id)
    && s'.images == s.images
    && var b, b' := s.bufs[id], s'.bufs[id];
    && if ok then
         && !s.failed && !s'.failed
         && b.lock.Unlocked? && b.dma in s.images
         && b'.lock.Locked? && b'.lock.write == write && !b'.lock.touched
         && IsImage(b.geo, s.images[b.dma]) && IsImage(b.geo, b'.lock.view)
         && b'.staging in {Coherent, NonCoherent(false)}
         && (!b.staging.NoStaging? ==> (b'.staging == Coherent <==> b.staging == Coherent))
         && (b.staging != NonCoherent(true) ==> b'.lock.view == s.images[b.dma])
       else
         && (s.failed ==> s'.failed)
         && b'.lock == b.lock
         && StagingKept(b.staging, b'.staging)
  }

  ghost predicate StoreStep(s: State, s': State, id: nat, off: nat, v: byte) {
    && OnlyBuf(s, s', id)
    && s'.images == s.images && s'.failed == s.failed
    && var b := s.bufs[id];
    && b.lock.Locked?
    && s'.bufs[id].lock == Locked(b.lock.write, true, StoreByte(b.geo, b.lock.view, off, v))
    && s'.bufs[id].staging == if b.staging.NonCoherent? then NonCoherent(true) else b.staging
  }

  predicate Writes(b: Buf, write: bool) {
    write || (b.lock.Locked? && b.lock.write)
  }

  ghost predicate UnlockStep(s: State, s': State, id: nat, write: bool, ok: bool, flushed: bool) {
    && OnlyBuf(s, s', id)
    && var b, b' := s.bufs[id], s'.bufs[id];
    && b.lock.Locked? && b'.lock.Unlocked?
    && b'.staging == (if flushed && b.staging.NonCoherent? then NonCoherent(false) else b.staging)
    && if !Writes(b, write) then
         && ok && !flushed && s'.images == s.images && s'.failed == s.failed
       else if ok then
         && flushed && !s.failed && !s'.failed
         && s'.images == s.images[b.dma := b.lock.view]
       else
         && (s.failed ==> s'.failed)
         && OnlyImage(s, s', b.dma)
         && (s'.failed == s.failed ==> s'.images == s.images)
  }

  ghost predicate Next(s: State, op: Op, s': State) {
    match op
    case Import(id, dma, geo) =>
      && id !in s.bufs && dma in s.images
      && s' == s.(bufs := s.bufs[id := Buf(dma, geo, NoStaging, Unlocked)])
    case Lock(id, write, ok) => LockStep(s, s', id, write, ok)
    case Store(id, off, b) => StoreStep(s, s', id, off, b)
    case Unlock(id, write, ok, flushed) => UnlockStep(s, s', id, write, ok, flushed)
    case Free(id) => id in s.bufs && s' == s.(bufs := s.bufs - {id})
    case External(dma, img) => dma in s.images && s' == s.(images := s.images[dma := img])
  }

  ghost predicate StepAt(states: seq<State>, ops: seq<Op>, i: nat) {
    i < |ops| && i + 1 < |states| && Next(states[i], ops[i], states[i + 1])
  }

  ghost predicate IsRun(states: seq<State>, ops: seq<Op>) {
    && |states| == |ops| + 1
    && forall i :: 0 <= i < |ops| ==> StepAt(states, ops, i)
  }

  // ---- when a lock shows the image ------------------------------------------------------

  /** The buffer has CPU stores that neither a flush nor a fresh lock has followed: seen from
      its operations alone. */
  function Pending(ops: seq<Op>, id: nat): bool {
    if ops == [] then false
    else
      var before := Pending(ops[..|ops| - 1], id);
      match ops[|ops| - 1]
      case Store(j, _, _) => before || j == id
      case Lock(j, _, ok) => before && !(j == id && ok)
      case Unlock(j, _, _, flushed) => before && !(j == id && flushed)
      case Import(j, _, _) => before && j != id
      case Free(j) => before && j != id
      case External(_, _) => before
  }

  ghost predicate PendingIs(b: Buf, pending: bool) {
    && (b.staging.NoStaging? ==> !pending && b.lock.Unlocked?)
    && (b.staging.NonCoherent? ==> b.staging.unflushed == pending)
  }

  lemma PendingStep(s: State, op: Op, s': State, ops: seq<Op>, id: nat)
    requires Next(s, op, s') && (id in s.bufs ==> PendingIs(s.bufs[id], Pending(ops, id)))
    ensures id in s'.bufs ==> PendingIs(s'.bufs[id], Pending(ops + [op], id))
  {
    assert (ops + [op])[..|ops|] == ops;
  }

  /** In every run, non-coherent staging holds unflushed stores exactly when the buffer's
      operations say so. */
  lemma {:induction false} UnflushedExactly(states: seq<State>, ops: seq<Op>, n: nat, id: nat)
    requires IsRun(states, ops) && states[0].bufs == map[] && n <= |ops|
    ensures id in states[n].bufs ==> PendingIs(states[n].bufs[id], Pending(ops[..n], id))
  {
    if n > 0 {
      UnflushedExactly(states, ops, n - 1, id);
      assert StepAt(states, ops, n - 1) && ops[..n] == ops[..n - 1] + [ops[n - 1]];
      PendingStep(states[n - 1], ops[n - 1], states[n], ops[..n - 1], id);
    }
  }

  /** A state that may be locked to another view than the image. */
  lemma UndefinedView(s: State, id: nat, write: bool) returns (s': State)
    requires Valid(s) && !s.failed && id in s.bufs
    requires s.bufs[id].lock.Unlocked?&& s.bufs[id].staging == NonCoherent(true)
    requires s.bufs[id].geo.bpp > 0 && s.bufs[id].geo.width > 0 && s.bufs[id].geo.height > 0
    requires IsImage(s.bufs[id].geo, s.images[s.bufs[id].dma])
    ensures Next(s, Lock(id, write, true), s') && s'.bufs[id].lock.view != s.images[s.bufs[id].dma]
  {
    var b := s.bufs[id];
    var g, img := b.geo, s.images[b.dma];
    var t := TexelOf(g, img, 0, 0);
    var view := img[0 := img[0][0 := t[0 := t[0] ^ 1]]];
    assert view[0][0][0] != img[0][0][0];
    RowsAt(g, img, g.height);
    RowsAt(g, view, g.height);
    forall y | 0 <= y < g.height ensures IsRow(g, view[y]) { assert IsRow(g, img[y]); }
    s' := s.(bufs := s.bufs[id := b.(staging := NonCoherent(false), lock := Locked(write, false, view))]);
  }

  /** The lock's promise, exactly: after any run, every successful lock of a buffer shows the
      image's pixels if and only if its staging memory is coherent or every store made
      through the buffer has been flushed by an unlock, or dropped by a later lock. */
  lemma LockPromise(states: seq<State>, ops: seq<Op>, id: nat, write: bool)
    requires IsRun(states, ops) && states[0].bufs == map[]
    requires var s := states[|ops|];
      && Valid(s) && !s.failed && id in s.bufs && s.bufs[id].lock.Unlocked?
      && s.bufs[id].geo.bpp > 0 && s.bufs[id].geo.width > 0 && s.bufs[id].geo.height > 0
      && IsImage(s.bufs[id].geo, s.images[s.bufs[id].dma])
    ensures var s := states[|ops|];
      (forall s' :: Next(s, Lock(id, write, true), s') ==> s'.bufs[id].lock.view == s.images[s.bufs[id].dma])
      <==> !(s.bufs[id].staging.NonCoherent? && Pending(ops, id))
  {
    UnflushedExactly(states, ops, |ops|, id);
    assert ops[..|ops|] == ops;
    if states[|ops|].bufs[id].staging == NonCoherent(true) {
      var s' := UndefinedView(states[|ops|], id, write);
    }
  }

  lemma OneMoreStep(states: seq<State>, ops: seq<Op>, op: Op, s: State)
    requires IsRun(states, ops) && Next(states[|ops|], op, s)
    ensures IsRun(states + [s], ops + [op])
  {
    forall i | 0 <= i < |ops + [op]| ensures StepAt(states + [s], ops + [op], i) {
      if i < |ops| { assert StepAt(states, ops, i); }
    }
  }

  function OneBuf(images: map<nat, Image>, id: nat, b: Buf): State { State(images, map[id := b], false) }

  /** The steps of a read lock that stores and is unlocked without WRITE, in non-coherent memory. */
  lemma ReadLockStores(images: map<nat, Image>, id: nat, d: nat, g: Geo, off: nat, v: byte)
    requires d in images && IsImage(g, images[d])
    ensures var img := images[d];
      var s1, s2 := OneBuf(images, id, Buf(d, g, NoStaging, Unlocked)),
                    OneBuf(images, id, Buf(d, g, NonCoherent(false), Locked(false, false, img)));
      var s3, s4 := OneBuf(images, id, Buf(d, g, NonCoherent(true), Locked(false, true, StoreByte(g, img, off, v)))),
                    OneBuf(images, id, Buf(d, g, NonCoherent(true), Unlocked));
      && Next(State(images, map[], false), Import(id, d, g), s1)
      && Next(s1, Lock(id, false, true), s2)
      && Next(s2, Store(id, off, v), s3)
      && Next(s3, Unlock(id, false, true, false), s4)
  {}

  /** For any non-empty image there is a run that gets there: imported, locked for reading, stored to,
      unlocked without WRITE, and locked again. The second lock shows what the image never held. */
  lemma StaleLockRun(images: map<nat, Image>, id: nat, d: nat, g: Geo, off: nat, v: byte)
    returns (states: seq<State>, ops: seq<Op>)
    requires d in images && IsImage(g, images[d]) && g.bpp > 0 && g.width > 0 && g.height > 0
    ensures IsRun(states, ops) && states[0] == State(images, map[], false)
    ensures ops == [Import(id, d, g), Lock(id, false, true), Store(id, off, v), Unlock(id, false, true, false)]
                   + [Lock(id, false, true)]
    ensures states[5].images == images && id in states[5].bufs && states[5].bufs[id].lock.Locked?
    ensures states[5].bufs[id].lock.view != images[d]
  {
    var img, s0 := images[d], State(images, map[], false);
    var s1 := OneBuf(images, id, Buf(d, g, NoStaging, Unlocked));
    var s2 := OneBuf(images, id, Buf(d, g, NonCoherent(false), Locked(false, false, img)));
    var s3 := OneBuf(images, id, Buf(d, g, NonCoherent(true), Locked(false, true, StoreByte(g, img, off, v))));
    var s4 := OneBuf(images, id, Buf(d, g, NonCoherent(true), Unlocked));
    ReadLockStores(images, id, d, g, off, v);
    var s5 := UndefinedView(s4, id, false);
    states, ops := FourSteps(s0, Import(id, d, g), s1, Lock(id, false, true), s2, Store(id, off, v), s3,
                             Unlock(id, false, true, false), s4);
    OneMoreStep(states, ops, Lock(id, false, true), s5);
    states, ops := states + [s5], ops + [Lock(id, false, true)];
  }

  lemma FourSteps(s0: State, a: Op, s1: State, b: Op, s2: State, c: Op, s3: State, d: Op, s4: State)
    returns (states: seq<State>, ops: seq<Op>)
    requires Next(s0, a, s1) && Next(s1, b, s2) && Next(s2, c, s3) && Next(s3, d, s4)
    ensures IsRun(states, ops) && states == [s0, s1, s2, s3, s4] && ops == [a, b, c, d]
  {
    states, ops := [s0], [];
    OneMoreStep(states, ops, a, s1);
    states, ops := states + [s1], ops + [a];
    OneMoreStep(states, ops, b, s2);
    states, ops := states + [s2], ops + [b];
    OneMoreStep(states, ops, c, s3);
    states, ops := states + [s3], ops + [c];
    OneMoreStep(states, ops, d, s4);
    states, ops := states + [s4], ops + [d];
  }

  // ---- what changes pixels, over runs ------------------------------------------------------

  ghost predicate WritesTo(s: State, op: Op, d: nat) {
    || (op.External? && op.dma == d)
    || (op.Unlock? && op.id in s.bufs && s.bufs[op.id].dma == d && Writes(s.bufs[op.id], op.write))
  }

  /** Between writers a dma-buf keeps its pixels, whatever is locked, stored to, unlocked without
      WRITE, freed or written on other dma-bufs. */
  lemma {:induction false} PixelsKept(states: seq<State>, ops: seq<Op>, i: nat, j: nat, d: nat)
    requires IsRun(states, ops) && i <= j <= |ops| && d in states[i].images
    requires forall k :: i <= k < j ==> !WritesTo(states[k], ops[k], d)
    ensures d in states[j].images && states[j].images[d] == states[i].images[d]
  {
    if i < j {
      PixelsKept(states, ops, i, j - 1, d);
      assert StepAt(states, ops, j - 1) && !WritesTo(states[j - 1], ops[j - 1], d);
    }
  }

  /** A dead copy context stays dead: no later lock succeeds and no later unlock stores. */
  lemma {:induction false} FailureIsSticky(states: seq<State>, ops: seq<Op>, i: nat, j: nat)
    requires IsRun(states, ops) && i <= j < |ops| && states[i].failed
    ensures states[j].failed && states[j + 1].failed
    ensures ops[j].Lock? ==> !ops[j].ok
    ensures ops[j].Unlock? && ops[j].write ==> !ops[j].ok
    ensures states[j + 1].images != states[j].images ==> ops[j].External?
  {
    if i < j { FailureIsSticky(states, ops, i, j - 1); }
    assert StepAt(states, ops, j);
  }

  // ---- one lock session -------------------------------------------------------------

  /** The stores a run makes through buffer `id`, applied to a plain linear buffer. */
  ghost function Stored(g: Geo, img: Image, ops: seq<Op>, id: nat): Image {
    if ops == [] then img
    else
      var r, op := Stored(g, img, ops[..|ops| - 1], id), ops[|ops| - 1];
      if op.Store? && op.id == id then StoreByte(g, r, op.off, op.b) else r
  }

  /** Operations that neither end nor restart the session of `id`. */
  predicate LeavesSession(op: Op, id: nat) {
    match op
    case Lock(j, _, ok) => j != id || !ok
    case Unlock(j, _, _, _) => j != id
    case Free(j) => j != id
    case Import(_, _, _) => true
    case Store(_, _, _) => true
    case External(_, _) => true
  }

  lemma SessionStep(s: State, op: Op, s': State, id: nat)
    requires Next(s, op, s') && LeavesSession(op, id)
    requires id in s.bufs && s.bufs[id].lock.Locked?
    ensures id in s'.bufs
    ensures var b, b' := s.bufs[id], s'.bufs[id];
            && b'.geo == b.geo && b'.dma == b.dma
            && b'.lock.Locked? && b'.lock.write == b.lock.write
            && b'.lock.view == (if op.Store? && op.id == id then StoreByte(b.geo, b.lock.view, op.off, op.b)
                                else b.lock.view)
  {}

  lemma {:induction false} SessionView(states: seq<State>, ops: seq<Op>, id: nat, from: nat, to: nat)
    requires IsRun(states, ops) && from <= to <= |ops|
    requires id in states[from].bufs && states[from].bufs[id].lock.Locked?
    requires forall i :: from <= i < to ==> LeavesSession(ops[i], id)
    ensures id in states[to].bufs
    ensures var b, b' := states[from].bufs[id], states[to].bufs[id];
            && b'.geo == b.geo && b'.dma == b.dma
            && b'.lock.Locked? && b'.lock.write == b.lock.write
            && b'.lock.view == Stored(b.geo, b.lock.view, ops[from..to], id)
  {
    if from < to {
      SessionView(states, ops, id, from, to - 1);
      assert StepAt(states, ops, to - 1);
      SessionStep(states[to - 1], ops[to - 1], states[to], id);
      assert ops[from..to][..to - 1 - from] == ops[from..to - 1];
    }
  }

  /** A whole lock session: whatever else happens to any buffer in between, a successful
      write-unlock leaves in the image exactly the pixels the lock found, with this
      session's stores applied to them as to a plain linear buffer. */
  lemma WriteSession(states: seq<State>, ops: seq<Op>, id: nat, write: bool, write': bool)
    requires IsRun(states, ops) && |ops| >= 2
    requires ops[0] == Lock(id, write, true) && ops[|ops| - 1] == Unlock(id, write', true, true)
    requires write || write'
    requires forall i :: 1 <= i < |ops| - 1 ==> LeavesSession(ops[i], id)
    requires id in states[0].bufs && states[0].bufs[id].staging != NonCoherent(true)
    ensures var b := states[0].bufs[id];
            && b.dma in states[0].images && b.dma in states[|ops|].images
            && states[|ops|].images[b.dma]
                 == Stored(b.geo, states[0].images[b.dma], ops[1..|ops| - 1], id)
  {
    var n := |ops| - 1;
    assert StepAt(states, ops, 0);
    SessionView(states, ops, id, 1, n);
    assert StepAt(states, ops, n);
  }

  // ---- every run, as plain linear memory ----------------------------------------------------

  ghost predicate Over(s: State, id: nat, d: nat) {
    id in s.bufs && s.bufs[id].dma == d
  }

  ghost predicate Holds(s: State, j: nat, d: nat) {
    Over(s, j, d) && s.bufs[j].lock.Locked?
  }

  ghost predicate HoldsTouched(s: State, j: nat, d: nat) {
    Holds(s, j, d) && s.bufs[j].lock.touched
  }

  ghost predicate Sole(s: State, id: nat, d: nat) {
    forall j :: Holds(s, j, d) ==> j == id
  }

  /** What the gralloc contract asks of the users of one dma-buf: a lock is not taken while
      another holder has stored, stores and write-unlocks are made under sole access, and nobody
      else writes the dma-buf while the CPU holds it. How calls end is not a rule. */
  ghost predicate Rules(s: State, op: Op, d: nat) {
    match op
    case Lock(id, _, ok) => ok && Over(s, id, d) ==> forall j :: !HoldsTouched(s, j, d)
    case Store(id, _, _) => Over(s, id, d) ==> Sole(s, id, d)
    case Unlock(id, write, _, _) => Over(s, id, d) && Writes(s.bufs[id], write) ==> Sole(s, id, d)
    case External(e, _) => e == d ==> forall j :: !Holds(s, j, d)
    case Import(_, _, _) => true
    case Free(_) => true
  }

  /** Plain linear memory with a commit: what is stored for good, and what the holders see.
      `unknown`: holders whose lock found unflushed stores, so that their view is undefined. */
  datatype Memory = Memory(committed: Image, current: Image, unknown: set<nat>)

  /** A store takes effect at once. A write-unlock that succeeds commits; one that fails, an unlock
      without WRITE and a free roll back. The driver decides what is committed in two cases
      only: a copy it gave up on, and the write-back of an undefined view. */
  ghost function PlainStep(m: Memory, s: State, op: Op, s': State, d: nat): Memory {
    match op
    case Store(id, off, b) =>
      if Over(s, id, d) then m.(current := StoreByte(s.bufs[id].geo, m.current, off, b)) else m
    case External(e, img) => if e == d then m.(committed := img, current := img) else m
    case Lock(id, _, ok) =>
      if !ok || !Over(s, id, d) then m
      else m.(unknown := if s.bufs[id].staging == NonCoherent(true) then m.unknown + {id} else m.unknown - {id})
    case Unlock(id, write, ok, _) =>
      if !Holds(s, id, d) then m else Ended(m, Writes(s.bufs[id], write), ok, s.failed != s'.failed, id, s', d)
    case Free(id) =>
      if !Holds(s, id, d) then m else Ended(m, false, true, false, id, s', d)
    case Import(_, _, _) => m
  }

  ghost function Ended(m: Memory, write: bool, ok: bool, gaveUp: bool, id: nat, s': State, d: nat): Memory {
    var rest := m.unknown - {id};
    if write && d in s'.images && (gaveUp || (ok && id in m.unknown)) then Memory(s'.images[d], s'.images[d], rest)
    else if write && ok then Memory(m.current, m.current, rest)
    else Memory(m.committed, m.committed, rest)
  }

  /** The state shows the plain memory: the image is what was committed, every view that is defined is
      the current contents, and the two differ only while a sole holder has stored. */
  ghost predicate Shows(s: State, d: nat, m: Memory) {
    && d in s.images && s.images[d] == m.committed
    && (forall j :: Holds(s, j, d) && j !in m.unknown ==> s.bufs[j].lock.view == m.current)
    && (forall j :: HoldsTouched(s, j, d) ==> Sole(s, j, d))
    && (m.current != m.committed ==> exists j :: HoldsTouched(s, j, d))
  }

  lemma ShowsAfterLock(s: State, op: Op, s': State, d: nat, m: Memory)
    requires op.Lock? && Shows(s, d, m) && Next(s, op, s') && Rules(s, op, d)
    ensures Shows(s', d, PlainStep(m, s, op, s', d))
  {
    assert forall j :: HoldsTouched(s', j, d) <==> HoldsTouched(s, j, d);
    assert forall j :: Holds(s', j, d) ==> Holds(s, j, d) || (op.ok && j == op.id);
  }

  lemma ShowsAfterStore(s: State, op: Op, s': State, d: nat, m: Memory)
    requires op.Store? && Shows(s, d, m) && Next(s, op, s') && Rules(s, op, d)
    ensures Shows(s', d, PlainStep(m, s, op, s', d))
  {
    assert forall j :: Holds(s', j, d) <==> Holds(s, j, d);
    if Over(s, op.id, d) {
      assert HoldsTouched(s', op.id, d);
    } else {
      assert forall j :: HoldsTouched(s', j, d) <==> HoldsTouched(s, j, d);
    }
  }

  /** Nothing over d is held any more, or nothing of it has changed. */
  lemma ShowsAfterUnlock(s: State, op: Op, s': State, d: nat, m: Memory)
    requires op.Unlock? && Shows(s, d, m) && Next(s, op, s') && Rules(s, op, d)
    ensures Shows(s', d, PlainStep(m, s, op, s', d))
  {
    assert forall j :: Holds(s', j, d) <==> j != op.id && Holds(s, j, d);
    assert forall j :: HoldsTouched(s', j, d) <==> j != op.id && HoldsTouched(s, j, d);
  }

  lemma ShowsAfterFree(s: State, op: Op, s': State, d: nat, m: Memory)
    requires op.Free? && Shows(s, d, m) && Next(s, op, s')
    ensures Shows(s', d, PlainStep(m, s, op, s', d))
  {
    assert forall j :: Holds(s', j, d) <==> j != op.id && Holds(s, j, d);
    assert forall j :: HoldsTouched(s', j, d) <==> j != op.id && HoldsTouched(s, j, d);
  }

  lemma ShowsAfterRest(s: State, op: Op, s': State, d: nat, m: Memory)
    requires (op.Import? || op.External?) && Shows(s, d, m) && Next(s, op, s') && Rules(s, op, d)
    ensures Shows(s', d, PlainStep(m, s, op, s', d))
  {
    assert forall j :: Holds(s', j, d) <==> Holds(s, j, d);
    assert forall j :: HoldsTouched(s', j, d) <==> HoldsTouched(s, j, d);
  }

  lemma ShowsAfter(s: State, op: Op, s': State, d: nat, m: Memory)
    requires Shows(s, d, m) && Next(s, op, s') && Rules(s, op, d)
    ensures Shows(s', d, PlainStep(m, s, op, s', d))
  {
    match op
    case Lock(_, _, _) => ShowsAfterLock(s, op, s', d, m);
    case Store(_, _, _) => ShowsAfterStore(s, op, s', d, m);
    case Unlock(_, _, _, _) => ShowsAfterUnlock(s, op, s', d, m);
    case Free(_) => ShowsAfterFree(s, op, s', d, m);
    case Import(_, _, _) => ShowsAfterRest(s, op, s', d, m);
    case External(_, _) => ShowsAfterRest(s, op, s', d, m);
  }

  /** The plain memory behind dma-buf d after the first n operations of a run. */
  ghost function PlainRun(states: seq<State>, ops: seq<Op>, n: nat, d: nat): Memory
    requires |states| == |ops| + 1 && n <= |ops| && d in states[0].images
  {
    if n == 0 then Memory(states[0].images[d], states[0].images[d], {})
    else PlainStep(PlainRun(states, ops, n - 1, d), states[n - 1], ops[n - 1], states[n], d)
  }

  ghost predicate RulesKept(states: seq<State>, ops: seq<Op>, n: nat, d: nat)
    requires |states| == |ops| + 1 && n <= |ops|
  {
    forall i :: 0 <= i < n ==> Rules(states[i], ops[i], d)
  }

  /** The refinement, for each dma-buf by itself: in every run over any number of buffers, with locks
      and write-backs failing anywhere and other dma-bufs used in any way, a dma-buf whose own users keep
      the rules shows at every moment, in its image and in every defined view, what plain linear memory
      with commit and roll-back would hold. */
  lemma {:induction false} RunIsPlain(states: seq<State>, ops: seq<Op>, n: nat, d: nat)
    requires IsRun(states, ops) && n <= |ops| && d in states[0].images
    requires forall j :: !Holds(states[0], j, d)
    requires RulesKept(states, ops, n, d)
    ensures Shows(states[n], d, PlainRun(states, ops, n, d))
  {
    if n > 0 {
      RunIsPlain(states, ops, n - 1, d);
      assert StepAt(states, ops, n - 1) && Rules(states[n - 1], ops[n - 1], d);
      ShowsAfter(states[n - 1], ops[n - 1], states[n], d, PlainRun(states, ops, n - 1, d));
    }
  }

  /** A failed write-back that the context survives loses the session and nothing else: the image is what
      it was, and the next view of coherent staging shows it. */
  lemma FailedUnlockRollsBack(s: State, id: nat, write: bool, flushed: bool, s': State, d: nat, m: Memory)
    requires Shows(s, d, m) && Next(s, Unlock(id, write, false, flushed), s')
    requires Rules(s, Unlock(id, write, false, flushed), d)
    requires Over(s, id, d) && s'.failed == s.failed
    ensures s'.images == s.images && Shows(s', d, Memory(m.committed, m.committed, m.unknown - {id}))
    ensures s.bufs[id].staging == Coherent || flushed ==> s'.bufs[id].staging != NonCoherent(true)
  {
    ShowsAfterUnlock(s, Unlock(id, write, false, flushed), s', d, m);
  }
}
