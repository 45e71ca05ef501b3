/** Whole runs of the backend: any sequence of calls by its users, with the driver failing anywhere,
    is a run of LinearBuffer, so every dma-buf whose users keep the rules is plain linear memory. */
module LockRuns {
  import opened Options
  import opened PixelLayout
  import opened TiledLock
  import L = LinearBuffer

  /** What a user may ask for. A request that breaks a caller's obligation is not made. */
  datatype Request =
    | Import(dma: nat, geo: Geo)
    | Lock(id: nat, flags: nat)
    | Store(id: nat, off: nat, b: byte)
    | Unlock(m: Mapping, flags: nat)
    | Free(id: nat)
    | External(dma: nat, img: Image)

  /** A step of LinearBuffer, or nothing. */
  ghost predicate Stepped(s: L.State, op: Option<L.Op>, s': L.State) {
    if op.Some? then L.Next(s, op.value, s') else s' == s
  }

  /** What a caller has to see to; other requests are not made. */
  predicate Meets(s: Snap, r: Request) {
    match r
    case Import(dma, geo) => dma in s.images && Imported(geo, s.images[dma])
    case Lock(id, _) => id in s.bos
    case Store(id, off, _) => id in s.bos && s.bos[id].locked && off < ViewSize(s.bos[id].geo)
    case Unlock(m, _) => m.bo in s.outstanding && s.outstanding[m.bo] == m
    case Free(id) => id in s.bos
    case External(dma, img) => dma in s.images && SameShape(s.images[dma], img)
  }

  /** How a request is answered. Every proper request is served. If all is `calm`, no call having failed and the
      device being usable, then an import succeeds, a lock succeeds exactly if the guard lets it, the buffer is
      not locked and the context has not failed, and an unlock with WRITE stores the view while it has not. */
  ghost predicate Answers(s: Snap, r: Request, op: Option<L.Op>, s': Snap, calm: bool) {
    if !Meets(s, r) then op == None
    else
      match r
      case Import(dma, geo) =>
        if op.Some? then op.value.Import? && op.value.dma == dma && op.value.geo == geo else !calm
      case Lock(id, flags) =>
        && op.Some? && op.value.Lock? && op.value.id == id && op.value.write == (flags / 2 % 2 == 1)
        && (op.value.ok && AbsStaging(s, id) != L.NonCoherent(true) ==> TiledLock.Shows(s', id))
        && (calm ==> (op.value.ok <==> LockGuard(s.bos[id].geo) && !s.bos[id].locked && !s.failed))
      case Store(id, off, b) => op == Some(L.Store(id, off, b))
      case Unlock(m, flags) =>
        && op.Some? && op.value.Unlock? && op.value.id == m.bo && op.value.write == (flags / 2 % 2 == 1)
        && (calm && !s.failed ==> op.value.ok)
        && (op.value.ok && (m.flags / 2 % 2 == 1 || flags / 2 % 2 == 1) ==> HoldsView(s, m.bo, s'.images))
      case Free(id) => op == Some(L.Free(id))
      case External(dma, img) => op == Some(L.External(dma, img))
  }

  method ServeImport(g: Gralloc, dma: nat, geo: Geo) returns (ghost op: Option<L.Op>)
    requires g.Valid()
    modifies g, g.vk, g.xferLock, g.device, g.vk.calls
    ensures g.Valid() && Stepped(Abs(old(g.Now())), op, Abs(g.Now()))
    ensures old(g.vk.calls.failed) <= g.vk.calls.failed && (old(g.device.state) < 0 ==> g.device.state < 0)
    ensures Answers(old(g.Now()), Import(dma, geo), op, g.Now(),
                    g.vk.calls.failed == old(g.vk.calls.failed) && g.device.state >= 0)
    ensures g.vk.images == old(g.vk.images)
    ensures old(g.xferState) < 0 ==> g.vk.submits == old(g.vk.submits)
    ensures g.vk.calls.failed == old(g.vk.calls.failed) && old(g.xferState) >= 0 ==> g.xferState >= 0
  {
    op := None;
    if dma in g.vk.images && Imported(geo, g.vk.images[dma]) {
      var id := g.Import(dma, geo);
      if id.Some? { op := Some(L.Import(id.value, dma, geo)); }
    }
  }

  method ServeLock(g: Gralloc, id: nat, flags: nat) returns (ghost op: Option<L.Op>)
    requires g.Valid()
    modifies g, g.vk, g.xferLock, g.device, g.vk.calls
    ensures g.Valid() && Stepped(Abs(old(g.Now())), op, Abs(g.Now()))
    ensures old(g.vk.calls.failed) <= g.vk.calls.failed && (old(g.device.state) < 0 ==> g.device.state < 0)
    ensures Answers(old(g.Now()), Lock(id, flags), op, g.Now(),
                    g.vk.calls.failed == old(g.vk.calls.failed) && g.device.state >= 0)
    ensures g.vk.images == old(g.vk.images)
    ensures old(g.xferState) < 0 ==> g.vk.submits == old(g.vk.submits)
    ensures g.vk.calls.failed == old(g.vk.calls.failed) && old(g.xferState) >= 0 ==> g.xferState >= 0
  {
    op := None;
    if id in g.bos {
      var m := g.MapTiled(id, flags);
      op := Some(L.Lock(id, HasWrite(flags), m.Mapped?));
    }
  }

  method ServeStore(g: Gralloc, id: nat, off: nat, b: byte) returns (ghost op: Option<L.Op>)
    requires g.Valid()
    modifies g, g.vk, g.xferLock, g.device, g.vk.calls
    ensures g.Valid() && Stepped(Abs(old(g.Now())), op, Abs(g.Now()))
    ensures old(g.vk.calls.failed) <= g.vk.calls.failed && (old(g.device.state) < 0 ==> g.device.state < 0)
    ensures Answers(old(g.Now()), Store(id, off, b), op, g.Now(),
                    g.vk.calls.failed == old(g.vk.calls.failed) && g.device.state >= 0)
    ensures g.vk.images == old(g.vk.images)
    ensures old(g.xferState) < 0 ==> g.vk.submits == old(g.vk.submits)
    ensures g.vk.calls.failed == old(g.vk.calls.failed) && old(g.xferState) >= 0 ==> g.xferState >= 0
  {
    op := None;
    if id in g.bos && g.bos[id].locked && off < ViewSize(g.bos[id].geo) {
      g.CpuStore(id, off, b);
      op := Some(L.Store(id, off, b));
    }
  }

  method ServeUnlock(g: Gralloc, m: Mapping, flags: nat) returns (ghost op: Option<L.Op>)
    requires g.Valid()
    modifies g, g.vk, g.xferLock, g.device, g.vk.calls
    ensures g.Valid() && Stepped(Abs(old(g.Now())), op, Abs(g.Now()))
    ensures old(g.vk.calls.failed) <= g.vk.calls.failed && (old(g.device.state) < 0 ==> g.device.state < 0)
    ensures Answers(old(g.Now()), Unlock(m, flags), op, g.Now(),
                    g.vk.calls.failed == old(g.vk.calls.failed) && g.device.state >= 0)
    ensures !HasWrite(flags) && !HasWrite(m.flags) ==> g.vk.images == old(g.vk.images)
    ensures old(g.xferState) < 0 ==> g.vk.submits == old(g.vk.submits)
    ensures g.vk.calls.failed == old(g.vk.calls.failed) && old(g.xferState) >= 0 ==> g.xferState >= 0
  {
    op := None;
    if m.bo in g.outstanding && g.outstanding[m.bo] == m {
      var ok;
      ghost var flushed;
      ok, flushed := g.UnmapTiled(m, flags);
      op := Some(L.Unlock(m.bo, HasWrite(flags), ok, flushed));
    }
  }

  method ServeFree(g: Gralloc, id: nat) returns (ghost op: Option<L.Op>)
    requires g.Valid()
    modifies g, g.vk, g.xferLock, g.device, g.vk.calls
    ensures g.Valid() && Stepped(Abs(old(g.Now())), op, Abs(g.Now()))
    ensures old(g.vk.calls.failed) <= g.vk.calls.failed && (old(g.device.state) < 0 ==> g.device.state < 0)
    ensures Answers(old(g.Now()), Free(id), op, g.Now(),
                    g.vk.calls.failed == old(g.vk.calls.failed) && g.device.state >= 0)
    ensures g.vk.images == old(g.vk.images)
    ensures old(g.xferState) < 0 ==> g.vk.submits == old(g.vk.submits)
    ensures g.vk.calls.failed == old(g.vk.calls.failed) && old(g.xferState) >= 0 ==> g.xferState >= 0
  {
    op := None;
    if id in g.bos {
      g.Free(id);
      op := Some(L.Free(id));
    }
  }

  method ServeExternal(g: Gralloc, dma: nat, img: Image) returns (ghost op: Option<L.Op>)
    requires g.Valid()
    modifies g, g.vk, g.xferLock, g.device, g.vk.calls
    ensures g.Valid() && Stepped(Abs(old(g.Now())), op, Abs(g.Now()))
    ensures old(g.vk.calls.failed) <= g.vk.calls.failed && (old(g.device.state) < 0 ==> g.device.state < 0)
    ensures Answers(old(g.Now()), External(dma, img), op, g.Now(),
                    g.vk.calls.failed == old(g.vk.calls.failed) && g.device.state >= 0)
    ensures old(g.xferState) < 0 ==> g.vk.submits == old(g.vk.submits)
    ensures g.vk.calls.failed == old(g.vk.calls.failed) && old(g.xferState) >= 0 ==> g.xferState >= 0
  {
    op := None;
    if dma in g.vk.images && SameShape(g.vk.images[dma], img) {
      g.External(dma, img);
      op := Some(L.External(dma, img));
    }
  }

  /** The requests that may change a pixel: another user's write, and an unlock with WRITE in the
      lock's or its own flags. */
  predicate Writer(r: Request) {
    r.External? || (r.Unlock? && (HasWrite(r.flags) || HasWrite(r.m.flags)))
  }

  /** One request: a step of LinearBuffer, or nothing. After the copy context has failed it submits nothing. */
  method Serve(g: Gralloc, r: Request) returns (ghost op: Option<L.Op>)
    requires g.Valid()
    modifies g, g.vk, g.xferLock, g.device, g.vk.calls
    ensures g.Valid() && Stepped(Abs(old(g.Now())), op, Abs(g.Now()))
    ensures old(g.vk.calls.failed) <= g.vk.calls.failed && (old(g.device.state) < 0 ==> g.device.state < 0)
    ensures Answers(old(g.Now()), r, op, g.Now(),
                    g.vk.calls.failed == old(g.vk.calls.failed) && g.device.state >= 0)
    ensures g.vk.images != old(g.vk.images) ==> Writer(r)
    ensures old(g.xferState) < 0 ==> g.vk.submits == old(g.vk.submits)
    ensures g.vk.calls.failed == old(g.vk.calls.failed) && old(g.xferState) >= 0 ==> g.xferState >= 0
  {
    match r
    case Import(dma, geo) => op := ServeImport(g, dma, geo);
    case Lock(id, flags) => op := ServeLock(g, id, flags);
    case Store(id, off, b) => op := ServeStore(g, id, off, b);
    case Unlock(m, flags) => op := ServeUnlock(g, m, flags);
    case Free(id) => op := ServeFree(g, id);
    case External(dma, img) => op := ServeExternal(g, dma, img);
  }

  lemma StaysFailed(s: L.State, op: Option<L.Op>, s': L.State)
    requires Stepped(s, op, s') && s.failed
    ensures s'.failed
  {}

  /** Nobody held the dma-buf at the start, and its users kept the rules up to the n-th operation. */
  ghost predicate PlainFrom(states: seq<L.State>, ops: seq<L.Op>, n: nat, d: nat) {
    && |states| == |ops| + 1 && n <= |ops| && d in states[0].images
    && (forall j :: !L.Holds(states[0], j, d)) && L.RulesKept(states, ops, n, d)
  }

  /** The operations among the answers, in their order. */
  function Given(answers: seq<Option<L.Op>>): seq<L.Op> {
    if answers == [] then []
    else Given(answers[..|answers| - 1]) + match answers[|answers| - 1] case Some(op) => [op] case None => []
  }

  lemma GivenOneMore(answers: seq<Option<L.Op>>, a: Option<L.Op>)
    ensures Given(answers + [a]) == Given(answers) + match a case Some(op) => [op] case None => []
  {
    assert (answers + [a])[..|answers|] == answers;
  }

  /** The state before each request, and how each was answered. */
  ghost predicate Journal(requests: seq<Request>, snaps: seq<Snap>, answers: seq<Option<L.Op>>, calm: bool) {
    && |snaps| == |answers| + 1 && |answers| <= |requests|
    && forall k :: 0 <= k < |answers| ==> Answers(snaps[k], requests[k], answers[k], snaps[k + 1], calm)
  }

  lemma JournalOneMore(requests: seq<Request>, snaps: seq<Snap>, answers: seq<Option<L.Op>>, op: Option<L.Op>, s: Snap,
                       calm: bool)
    requires |snaps| == |answers| + 1 && |answers| < |requests|
    ensures Journal(requests, snaps + [s], answers + [op], calm) <==>
      Journal(requests, snaps, answers, calm) && Answers(snaps[|answers|], requests[|answers|], op, s, calm)
  {
    var k := |answers|;
    assert forall i :: 0 <= i <= k ==> (snaps + [s])[i] == snaps[i];
    assert forall i :: 0 <= i < k ==> (answers + [op])[i] == answers[i];
    if Journal(requests, snaps + [s], answers + [op], calm) {
      assert Answers((snaps + [s])[k], requests[k], (answers + [op])[k], (snaps + [s])[k + 1], calm);
      forall i | 0 <= i < k ensures Answers(snaps[i], requests[i], answers[i], snaps[i + 1], calm) {
        assert Answers((snaps + [s])[i], requests[i], (answers + [op])[i], (snaps + [s])[i + 1], calm);
      }
    }
  }

  lemma AllPlain(states: seq<L.State>, ops: seq<L.Op>)
    requires L.IsRun(states, ops)
    ensures forall n, d :: 0 <= n <= |ops| && PlainFrom(states, ops, n, d) ==>
      L.Shows(states[n], d, L.PlainRun(states, ops, n, d))
  {
    forall n, d | 0 <= n <= |ops| && PlainFrom(states, ops, n, d)
      ensures L.Shows(states[n], d, L.PlainRun(states, ops, n, d))
    {
      L.RunIsPlain(states, ops, n, d);
    }
  }

  /** The run after one more answer. */
  ghost method Extend(states: seq<L.State>, ops: seq<L.Op>, op: Option<L.Op>, s: L.State)
    returns (states': seq<L.State>, ops': seq<L.Op>)
    requires L.IsRun(states, ops) && Stepped(states[|ops|], op, s)
    ensures L.IsRun(states', ops') && states'[0] == states[0] && states'[|ops'|] == s
    ensures ops' == ops + match op case Some(o) => [o] case None => []
  {
    states', ops' := states, ops;
    if op.Some? {
      L.OneMoreStep(states, ops, op.value, s);
      states', ops' := states + [s], ops + [op.value];
    }
  }

  /** Any sequence of requests, from a fresh backend or any later one. All proper requests are served; as long as no
      call fails and the device is usable, they succeed as `Answers` says and the context does not fail. */
  method Replay(g: Gralloc, requests: seq<Request>)
    returns (ghost states: seq<L.State>, ghost ops: seq<L.Op>, ghost snaps: seq<Snap>, ghost answers: seq<Option<L.Op>>)
    requires g.Valid()
    modifies g, g.vk, g.xferLock, g.device, g.vk.calls
    ensures g.Valid() && L.IsRun(states, ops)
    ensures states[0] == Abs(old(g.Now())) && states[|ops|] == Abs(g.Now())
    ensures forall n, d :: 0 <= n <= |ops| && PlainFrom(states, ops, n, d) ==>
      L.Shows(states[n], d, L.PlainRun(states, ops, n, d))
    ensures |answers| == |requests| && ops == Given(answers) && Journal(requests, snaps, answers, false)
    ensures snaps[0] == old(g.Now()) && snaps[|requests|] == g.Now()
    ensures g.vk.calls.failed == old(g.vk.calls.failed) && g.device.state >= 0 ==>
      Journal(requests, snaps, answers, true)
    ensures g.vk.calls.failed == old(g.vk.calls.failed) && old(g.xferState) >= 0 ==> g.xferState >= 0
    ensures old(g.xferState) < 0 ==> g.xferState < 0 && g.vk.submits == old(g.vk.submits)
  {
    states, ops, snaps, answers := [Abs(g.Now())], [], [g.Now()], [];
    for k := 0 to |requests|
      invariant g.Valid() && L.IsRun(states, ops)
      invariant states[0] == Abs(old(g.Now())) && states[|ops|] == Abs(g.Now())
      invariant |answers| == k && ops == Given(answers) && |snaps| == k + 1
      invariant snaps[0] == old(g.Now()) && snaps[k] == g.Now() && Journal(requests, snaps, answers, false)
      invariant old(g.vk.calls.failed) <= g.vk.calls.failed
      invariant g.vk.calls.failed == old(g.vk.calls.failed) && g.device.state >= 0 ==>
        Journal(requests, snaps, answers, true)
      invariant g.vk.calls.failed == old(g.vk.calls.failed) && old(g.xferState) >= 0 ==> g.xferState >= 0
      invariant old(g.xferState) < 0 ==> g.xferState < 0 && g.vk.submits == old(g.vk.submits)
    {
      ghost var s := Abs(g.Now());
      ghost var op := Serve(g, requests[k]);
      if s.failed { StaysFailed(s, op, Abs(g.Now())); }
      GivenOneMore(answers, op);
      JournalOneMore(requests, snaps, answers, op, g.Now(), false);
      JournalOneMore(requests, snaps, answers, op, g.Now(), true);
      states, ops := Extend(states, ops, op, Abs(g.Now()));
      snaps, answers := snaps + [g.Now()], answers + [op];
    }
    AllPlain(states, ops);
  }
}
