/** The per-thread current binding kept in front of a vendor's EGL library, and the vendor call it
    saves when the binding does not change. */
module EglBinding {
  import opened Options

  type Handle = nat
  const NONE: Handle := 0
  const EGL_DRAW := 0x3059
  const EGL_READ := 0x305A

  datatype Binding = Binding(dpy: Handle, draw: Handle, read: Handle, ctx: Handle)

  const UNBOUND := Binding(NONE, NONE, NONE, NONE)

  datatype EglError = Success | BadDisplay | BadMatch

  // ---- the handle map -----------------------------------------------------------------------

  const MAXMAP: nat := 64

  /** A table of handles searched from its start. */
  class HandleMap {
    const handles: array<Handle>
    const vendors: array<nat>
    var n: nat

    ghost predicate Valid()
      reads this, handles
    {
      && handles.Length == vendors.Length == MAXMAP && n <= MAXMAP && handles != vendors
      && forall i, j :: 0 <= i < j < n ==> handles[i] != handles[j]
    }

    /** The table as a map. */
    ghost predicate Is(m: map<Handle, nat>)
      requires Valid()
      reads this, handles, vendors
    {
      && (forall i :: 0 <= i < n ==> handles[i] in m && m[handles[i]] == vendors[i])
      && forall h :: h in m ==> h in handles[..n]
    }

    constructor ()
      ensures Valid() && fresh(handles) && fresh(vendors) && Is(map[])
    {
      handles, vendors, n := new Handle[MAXMAP], new nat[MAXMAP], 0;
    }

    /** False only when a new handle finds the table full. */
    method Add(h: Handle, v: nat, ghost m: map<Handle, nat>) returns (ok: bool)
      requires Valid() && Is(m)
      modifies this, handles, vendors
      ensures Valid() && Is(if ok then m[h := v] else m)
      ensures ok <==> h in m || old(n) < 64
    {
      for i := 0 to n
        invariant Valid() && Is(m) && n == old(n)
        invariant forall j :: 0 <= j < i ==> handles[j] != h
      {
        if handles[i] == h {
          vendors[i] := v;
          return true;
        }
      }
      if n == MAXMAP { return false; }
      Append(h, v, m);
      ok := true;
    }

    method Append(h: Handle, v: nat, ghost m: map<Handle, nat>)
      requires Valid() && Is(m) && n < MAXMAP && forall j :: 0 <= j < n ==> handles[j] != h
      modifies this, handles, vendors
      ensures Valid() && Is(m[h := v])
    {
      ghost var before := handles[..n];
      handles[n], vendors[n] := h, v;
      n := n + 1;
      assert handles[..n] == before + [h];
    }

    method Get(h: Handle, ghost m: map<Handle, nat>) returns (v: Option<nat>)
      requires Valid() && Is(m)
      ensures v == if h in m then Some(m[h]) else None
    {
      for i := 0 to n
        invariant forall j :: 0 <= j < i ==> handles[j] != h
      {
        if handles[i] == h { return Some(vendors[i]); }
      }
      v := None;
    }
  }

  // ---- the vendor and the cache ---------------------------------------------------------------

  /** The vendor's own idea of the current binding. A call that fails leaves it alone (section 3.7.3
      of the EGL 1.5 specification); no context means no binding at all. */
  class Vendor {
    var current: Binding
    ghost var asked: seq<(Binding, bool)>     // every call and how it ended

    constructor ()
      ensures current == UNBOUND && asked == []
    { current, asked := UNBOUND, []; }

    method MakeCurrent(b: Binding) returns (ok: bool)
      modifies this
      ensures current == if ok then Bound(b) else old(current)
      ensures asked == old(asked) + [(b, ok)]
    {
      ok := *;
      if ok { current := Bound(b); }
      asked := asked + [(b, ok)];
    }
  }

  /** What a successful eglMakeCurrent leaves current. */
  function Bound(b: Binding): Binding { if b.ctx == NONE then UNBOUND else b }

  class Thread {
    const vendor: Vendor
    var busy: bool          // cur_vendor is set
    var cached: Binding
    var lastError: EglError
    var fromVendor: bool    // last_vendor is set

    /** The cache agrees with the vendor, and cur_vendor says whether a context is current. */
    ghost predicate Valid()
      reads this, vendor
    {
      && cached == vendor.current
      && (busy <==> cached.ctx != NONE)
      && (!busy ==> cached == UNBOUND)
    }

    constructor ()
      ensures Valid() && fresh(vendor) && cached == UNBOUND
    {
      vendor := new Vendor();
      busy, cached, lastError, fromVendor := false, UNBOUND, Success, false;
    }

    method Dispatch(b: Binding) returns (ok: bool)
      modifies vendor, `lastError, `fromVendor
      ensures vendor.current == if ok then Bound(b) else old(vendor.current)
      ensures vendor.asked == old(vendor.asked) + [(b, ok)] && lastError == Success && fromVendor
    {
      lastError, fromVendor := Success, true;
      ok := vendor.MakeCurrent(b);
    }

    /** eglMakeCurrent. Success means the vendor now has exactly this binding, as if it had been asked;
        failure leaves the old one. The vendor is not asked when nothing would change; otherwise a proper call
        is put to it once and ends as it answers, and refused calls report their error without it. */
    method MakeCurrent(known: bool, b: Binding) returns (ok: bool)
      requires Valid()
      modifies this, vendor
      ensures Valid()
      ensures cached == if ok then Bound(b) else old(cached)
      ensures !known ==> !ok && lastError == BadDisplay && !fromVendor
      ensures known && b.ctx == NONE && (b.draw != NONE || b.read != NONE) ==>
        !ok && lastError == BadMatch && !fromVendor
      ensures !known || (b.ctx == 0 && (b.draw != 0 || b.read != 0)) ==> vendor.asked == old(vendor.asked)
      ensures known && (b.ctx != 0 || (b.draw == 0 && b.read == 0)) ==>
        if b.ctx == 0 == old(cached).ctx || (b.ctx != 0 && b == old(cached))
        then ok && vendor.asked == old(vendor.asked) && vendor.current == old(vendor.current) == Bound(b)
             && lastError == old(lastError) && fromVendor == old(fromVendor)
        else lastError == Success && fromVendor && vendor.asked == old(vendor.asked)
                 + [(if b.ctx != 0 then b else Binding(old(cached).dpy, 0, 0, 0), ok)]
    {
      if !known { lastError, fromVendor := BadDisplay, false; return false; }
      if b.ctx == NONE && (b.draw != NONE || b.read != NONE) { lastError, fromVendor := BadMatch, false; return false; }
      if !busy {
        if b.ctx == NONE { return true; }
        busy := true;
        ok := Dispatch(b);
        if ok { cached := b; } else { busy := false; }
        return;
      }
      if b == cached { return true; }
      if b.ctx == NONE {
        ok := Dispatch(Binding(cached.dpy, NONE, NONE, NONE));
        if !ok { return; }
        busy, cached := false, UNBOUND;
        return;
      }
      ok := Dispatch(b);
      if ok { cached := b; }
    }

    /** What the vendor's callbacks read. */
    method CurrentContext() returns (ctx: Handle)
      requires Valid()
      ensures ctx == vendor.current.ctx
    {
      ctx := if busy then cached.ctx else NONE;
    }

    method CurrentDisplay() returns (dpy: Handle)
      requires Valid()
      ensures dpy == vendor.current.dpy
    {
      dpy := if busy then cached.dpy else NONE;
    }

    method CurrentSurface(rd: int) returns (s: Handle)
      requires Valid()
      ensures s == if rd == 0x3059 then vendor.current.draw else if rd == 0x305A then vendor.current.read else 0
    {
      if !busy { return NONE; }
      s := if rd == EGL_DRAW then cached.draw else if rd == EGL_READ then cached.read else NONE;
    }
  }

  /** The binding after a whole sequence of calls, given which of them succeed. */
  function After(start: Binding, calls: seq<Binding>, oks: seq<bool>): Binding
    requires |calls| == |oks|
  {
    if calls == [] then start
    else
      var n := |calls| - 1;
      var b := After(start, calls[..n], oks[..n]);
      if oks[n] then Bound(calls[n]) else b
  }

  /** Over any sequence of calls, on displays the table knows and on others, the cache, the callbacks
      and the vendor agree at every point, and only calls on known displays succeed. */
  method Replay(t: Thread, displays: HandleMap, ghost m: map<Handle, nat>, calls: seq<Binding>) returns (oks: seq<bool>)
    requires t.Valid() && displays.Valid() && displays.Is(m)
    modifies t, t.vendor
    ensures t.Valid() && |oks| == |calls| && t.vendor.current == After(old(t.vendor.current), calls, oks)
    ensures forall i :: 0 <= i < |calls| && oks[i] ==> calls[i].dpy in m
  {
    oks := [];
    for i := 0 to |calls|
      invariant t.Valid() && |oks| == i && t.cached == After(old(t.cached), calls[..i], oks)
      invariant forall k :: 0 <= k < i && oks[k] ==> calls[k].dpy in m
    {
      var vendor := displays.Get(calls[i].dpy, m);
      var ok := t.MakeCurrent(vendor.Some?, calls[i]);
      assert calls[..i + 1][..i] == calls[..i] && (oks + [ok])[..i] == oks;
      oks := oks + [ok];
    }
    assert calls[..|calls|] == calls;
  }
}
