/** Placing the planes of an image in one buffer: each at the least offset that its alignment, its
    requested offset and the plane before it allow. The offsets are 32-bit, the arithmetic 64-bit. */
module PlaneLayout {
  import opened ModArith
  import opened Options

  /** A plane's memory requirement as the driver reports it. */
  datatype Plane = Plane(size: nat, alignment: nat)

  predicate IsPlane(p: Plane) { p.size < U64 && p.alignment < U64 }

  function Alignment(p: Plane): (a: nat)
    ensures a > 0
  { if p.alignment != 0 then p.alignment else 1 }

  function Max(a: nat, b: nat): nat { if a > b then a else b }

  // ---- the ideal layout, without a word size ------------------------------------------------

  predicate Multiple(x: nat, a: nat)
    requires a > 0
  {
    x == 0 || (x >= a && Multiple(x - a, a))
  }

  lemma {:induction false} MultipleIsMod(x: nat, a: nat)
    requires a > 0
    ensures Multiple(x, a) <==> x % a == 0
  {
    if x < a {
      DivModUnique(x, a, 0, x);
    } else {
      MultipleIsMod(x - a, a);
      ModShift(x - a, 1, a);
    }
  }

  /** The greatest multiple of `a` up to x. */
  function RoundDown(x: nat, a: nat): (r: nat)
    requires a > 0
    ensures r <= x < r + a
  {
    if x < a then 0 else RoundDown(x - a, a) + a
  }

  lemma {:induction false} RoundDownMultiple(x: nat, a: nat)
    requires a > 0
    ensures Multiple(RoundDown(x, a), a)
  {
    if x >= a { RoundDownMultiple(x - a, a); }
  }

  lemma {:induction false} RoundDownIsDivTimes(x: nat, a: nat)
    requires a > 0
    ensures x / a * a == RoundDown(x, a)
  {
    if x < a {
      DivModUnique(x, a, 0, x);
    } else {
      RoundDownIsDivTimes(x - a, a);
      DivModUnique(x, a, (x - a) / a + 1, (x - a) % a);
    }
  }

  function RoundUp(o: nat, a: nat): nat
    requires a > 0
  { RoundDown(o + a - 1, a) }

  lemma RoundUpLeast(o: nat, a: nat, x: nat)
    requires a > 0
    ensures o <= RoundUp(o, a) < o + a && Multiple(RoundUp(o, a), a)
    ensures o <= x && Multiple(x, a) ==> RoundUp(o, a) <= x
  {
    RoundDownMultiple(o + a - 1, a);
    if o <= x && Multiple(x, a) { NextMultiple(RoundUp(o, a), x, a); }
  }

  /** Multiples of a are at least a apart. */
  lemma {:induction false} NextMultiple(x: nat, y: nat, a: nat)
    requires a > 0 && Multiple(x, a) && Multiple(y, a)
    ensures y < x ==> y + a <= x
  {
    if 0 < y < x { NextMultiple(x - a, y - a, a); }
  }

  /** Where plane p begins at the earliest, before alignment. */
  function Floor(want: seq<nat>, ps: seq<Plane>, p: nat): nat
    requires |want| == |ps| && p < |ps|
    decreases p, 0
  {
    Max(want[p], if p == 0 then 0 else End(want, ps, p - 1))
  }

  function Offset(want: seq<nat>, ps: seq<Plane>, p: nat): nat
    requires |want| == |ps| && p < |ps|
    decreases p, 1
  {
    RoundUp(Floor(want, ps, p), Alignment(ps[p]))
  }

  function End(want: seq<nat>, ps: seq<Plane>, p: nat): nat
    requires |want| == |ps| && p < |ps|
    decreases p, 2
  {
    Offset(want, ps, p) + ps[p].size
  }

  lemma FloorBounds(want: seq<nat>, ps: seq<Plane>, p: nat)
    requires |want| == |ps| && p < |ps|
    ensures Floor(want, ps, p) == Max(want[p], if p == 0 then 0 else Offset(want, ps, p - 1) + ps[p - 1].size)
  {
    if p > 0 { assert End(want, ps, p - 1) == Offset(want, ps, p - 1) + ps[p - 1].size; }
  }

  /** Offsets that respect alignment, the requested offsets and the order of the planes. */
  ghost predicate Valid(want: seq<nat>, ps: seq<Plane>, offs: seq<nat>) {
    && |want| == |ps| == |offs|
    && (forall p :: 0 <= p < |ps| ==> want[p] <= offs[p] && Multiple(offs[p], Alignment(ps[p])))
    && forall p :: 0 <= p < |ps| - 1 ==> Follows(ps, offs, p)
  }

  /** The next plane begins behind plane p. */
  predicate Follows(ps: seq<Plane>, offs: seq<nat>, p: nat)
    requires p + 1 < |ps| == |offs|
  {
    offs[p] + ps[p].size <= offs[p + 1]
  }

  lemma FollowsAt(want: seq<nat>, ps: seq<Plane>, offs: seq<nat>, p: nat)
    requires p + 1 < |ps| == |offs|
    ensures Valid(want, ps, offs) ==> offs[p] + ps[p].size <= offs[p + 1]
  {
    if Valid(want, ps, offs) { assert Follows(ps, offs, p); }
  }

  /** Planes in order do not overlap, however far apart. */
  lemma {:induction false} Apart(want: seq<nat>, ps: seq<Plane>, offs: seq<nat>, p: nat, q: nat)
    requires Valid(want, ps, offs) && p < q < |ps|
    ensures offs[p] + ps[p].size <= offs[q]
  {
    assert Follows(ps, offs, q - 1);
    if p + 1 < q { Apart(want, ps, offs, p, q - 1); }
  }

  function Ideal(want: seq<nat>, ps: seq<Plane>): (offs: seq<nat>)
    requires |want| == |ps|
    ensures |offs| == |ps| && forall p :: 0 <= p < |ps| ==> offs[p] == Offset(want, ps, p)
  {
    seq(|ps|, p requires 0 <= p < |ps| => Offset(want, ps, p))
  }

  lemma IdealValid(want: seq<nat>, ps: seq<Plane>)
    requires |want| == |ps|
    ensures Valid(want, ps, Ideal(want, ps))
    ensures forall p :: 0 <= p < |ps| && ps[p].alignment != 0 ==> Ideal(want, ps)[p] % ps[p].alignment == 0
  {
    forall p | 0 <= p < |ps|
      ensures want[p] <= Offset(want, ps, p) && Multiple(Offset(want, ps, p), Alignment(ps[p]))
      ensures Offset(want, ps, p) % Alignment(ps[p]) == 0
      ensures p > 0 ==> Offset(want, ps, p - 1) + ps[p - 1].size <= Offset(want, ps, p)
    {
      FloorBounds(want, ps, p);
      RoundUpLeast(Floor(want, ps, p), Alignment(ps[p]), 0);
      MultipleIsMod(Offset(want, ps, p), Alignment(ps[p]));
    }
  }

  /** No valid layout puts any plane lower. */
  lemma {:induction false} IdealLeast(want: seq<nat>, ps: seq<Plane>, offs: seq<nat>, p: nat)
    requires Valid(want, ps, offs) && p < |ps|
    ensures Offset(want, ps, p) <= offs[p]
  {
    if p > 0 {
      IdealLeast(want, ps, offs, p - 1);
      assert Follows(ps, offs, p - 1);
    }
    FloorBounds(want, ps, p);
    RoundUpLeast(Floor(want, ps, p), Alignment(ps[p]), offs[p]);
  }

  // ---- the code's arithmetic -----------------------------------------------------------------

  /** A 64-bit sum. */
  function Wrap(x: nat): (r: nat)
    requires x < 2 * U64
    ensures r < U64
  { if x < U64 then x else x - U64 }

  lemma WrapIsMod(x: nat)
    requires x < 2 * U64
    ensures Wrap(x) == x % U64
  {
    if x >= U64 { DivModUnique(x, U64, 1, x - U64); }
  }

  /** No sum of the ideal layout of the first n planes leaves 64 bits. */
  predicate NoWrap(want: seq<nat>, ps: seq<Plane>, n: nat)
    requires |want| == |ps| && n <= |ps|
  {
    forall p :: 0 <= p < n ==> Floor(want, ps, p) + Alignment(ps[p]) - 1 < U64 && End(want, ps, p) < U64
  }

  predicate Inputs(want: seq<nat>, ps: seq<Plane>) {
    && |want| == |ps|
    && forall p :: 0 <= p < |ps| ==> want[p] < U32 && IsPlane(ps[p])
  }

  /** One plane in 64-bit arithmetic: its offset behind `end`. */
  function Place(want: nat, p: Plane, end: nat): (o: nat)
    requires want < U32 && IsPlane(p) && end < U64
    ensures o < U64
  {
    var a := Alignment(p);
    RoundDown(Wrap(Max(want, end) + a - 1), a)
  }

  /** What the loop computes for the first n planes: their offsets and the end of the last. */
  function Placed(want: seq<nat>, ps: seq<Plane>, n: nat): (r: Option<(seq<nat>, nat)>)
    requires Inputs(want, ps) && n <= |ps|
    ensures r.Some? ==> |r.value.0| == n && r.value.1 < U64
  {
    if n == 0 then Some(([], 0))
    else
      var before := Placed(want, ps, n - 1);
      if before.None? then None
      else
        var o := Place(want[n - 1], ps[n - 1], before.value.1);
        if o >= U32 then None else Some((before.value.0 + [o], Wrap(o + ps[n - 1].size)))
  }

  lemma PlaceIdeal(want: seq<nat>, ps: seq<Plane>, p: nat, end: nat)
    requires Inputs(want, ps) && p < |ps| && end == EndBefore(want, ps, p)
    requires Floor(want, ps, p) + Alignment(ps[p]) - 1 < U64
    ensures Place(want[p], ps[p], end) == Offset(want, ps, p)
  {}

  function EndBefore(want: seq<nat>, ps: seq<Plane>, n: nat): nat
    requires |want| == |ps| && n <= |ps|
  { if n == 0 then 0 else End(want, ps, n - 1) }

  /** The first n ideal offsets fit 32 bits. */
  predicate AllFit(want: seq<nat>, ps: seq<Plane>, n: nat)
    requires |want| == |ps| && n <= |ps|
  {
    n == 0 || (AllFit(want, ps, n - 1) && Offset(want, ps, n - 1) < U32)
  }

  lemma {:induction false} AllFitAt(want: seq<nat>, ps: seq<Plane>, n: nat, p: nat)
    requires |want| == |ps| && p < n <= |ps| && AllFit(want, ps, n)
    ensures Offset(want, ps, p) < U32
  {
    if p < n - 1 { AllFitAt(want, ps, n - 1, p); }
  }

  lemma {:induction false} OneTooFar(want: seq<nat>, ps: seq<Plane>, n: nat) returns (p: nat)
    requires |want| == |ps| && n <= |ps| && !AllFit(want, ps, n)
    ensures p < n && Offset(want, ps, p) >= U32
  {
    if Offset(want, ps, n - 1) >= U32 { p := n - 1; } else { p := OneTooFar(want, ps, n - 1); }
  }

  lemma IdealStep(want: seq<nat>, ps: seq<Plane>, n: nat)
    requires Inputs(want, ps) && n < |ps|
    requires Floor(want, ps, n) + Alignment(ps[n]) - 1 < U64 && End(want, ps, n) < U64
    requires Placed(want, ps, n) == Some((Ideal(want, ps)[..n], EndBefore(want, ps, n)))
    ensures Placed(want, ps, n + 1) ==
      if Offset(want, ps, n) < U32 then Some((Ideal(want, ps)[..n + 1], EndBefore(want, ps, n + 1))) else None
  {
    PlaceIdeal(want, ps, n, EndBefore(want, ps, n));
    assert Ideal(want, ps)[..n + 1] == Ideal(want, ps)[..n] + [Offset(want, ps, n)];
  }

  function PlacedIdeal(want: seq<nat>, ps: seq<Plane>, n: nat): Option<(seq<nat>, nat)>
    requires |want| == |ps| && n <= |ps|
  {
    if AllFit(want, ps, n) then Some((Ideal(want, ps)[..n], EndBefore(want, ps, n))) else None
  }

  lemma PlacedIdealStep(want: seq<nat>, ps: seq<Plane>, n: nat)
    requires Inputs(want, ps) && n < |ps|
    requires Floor(want, ps, n) + Alignment(ps[n]) - 1 < U64 && End(want, ps, n) < U64
    requires Placed(want, ps, n) == PlacedIdeal(want, ps, n)
    ensures Placed(want, ps, n + 1) == PlacedIdeal(want, ps, n + 1)
  {
    if AllFit(want, ps, n) { IdealStep(want, ps, n); }
  }

  /** Without a wrap the loop computes the ideal layout, and stops exactly when that needs more than 32 bits. */
  lemma {:induction false} PlacedIsIdeal(want: seq<nat>, ps: seq<Plane>, n: nat)
    requires Inputs(want, ps) && n <= |ps| && NoWrap(want, ps, n)
    ensures Placed(want, ps, n) ==
      if AllFit(want, ps, n) then Some((Ideal(want, ps)[..n], EndBefore(want, ps, n))) else None
  {
    PlacedUpTo(want, ps, n, n);
  }

  lemma {:induction false} PlacedUpTo(want: seq<nat>, ps: seq<Plane>, n: nat, m: nat)
    requires Inputs(want, ps) && m <= n <= |ps| && NoWrap(want, ps, n)
    ensures Placed(want, ps, m) == PlacedIdeal(want, ps, m)
  {
    if m > 0 {
      PlacedUpTo(want, ps, n, m - 1);
      PlacedIdealStep(want, ps, m - 1);
    }
  }

  lemma {:induction false} PlacedPrefix(want: seq<nat>, ps: seq<Plane>, n: nat, p: nat)
    requires Inputs(want, ps) && p <= n <= |ps| && Placed(want, ps, n).Some?
    ensures Placed(want, ps, p).Some? && Placed(want, ps, p).value.0 == Placed(want, ps, n).value.0[..p]
  {
    if p < n { PlacedPrefix(want, ps, n - 1, p); }
  }

  /** Offsets and total size that a caller may use: valid, in 32 bits, covering every plane and the image. */
  ghost predicate Good(want: seq<nat>, ps: seq<Plane>, imageSize: nat, offs: seq<nat>, total: nat) {
    && Valid(want, ps, offs) && imageSize <= total < 0x1_0000_0000_0000_0000
    && (forall p :: 0 <= p < |ps| && ps[p].alignment != 0 ==> offs[p] % ps[p].alignment == 0)
    && forall p :: 0 <= p < |ps| ==> offs[p] < 0x1_0000_0000 && offs[p] + ps[p].size <= total
  }

  lemma IdealIsGood(want: seq<nat>, ps: seq<Plane>, imageSize: nat, total: nat)
    requires |want| == |ps| && imageSize <= total < U64
    requires forall p :: 0 <= p < |ps| ==> Offset(want, ps, p) < U32
    requires ps != [] ==> EndBefore(want, ps, |ps|) <= total
    ensures Good(want, ps, imageSize, Ideal(want, ps), total)
  {
    IdealValid(want, ps);
    forall p | 0 <= p < |ps| ensures Ideal(want, ps)[p] < U32 && Ideal(want, ps)[p] + ps[p].size <= total {
      EndCovers(want, ps, p);
    }
  }

  lemma NoWrapIsGood(want: seq<nat>, ps: seq<Plane>, imageSize: nat)
    requires Inputs(want, ps) && imageSize < U64 && Placed(want, ps, |ps|).Some? && NoWrap(want, ps, |ps|)
    ensures var (offs, end) := Placed(want, ps, |ps|).value; Good(want, ps, imageSize, offs, Max(end, imageSize))
  {
    PlacedIsIdeal(want, ps, |ps|);
    forall p | 0 <= p < |ps| ensures Offset(want, ps, p) < U32 { AllFitAt(want, ps, |ps|, p); }
    assert Ideal(want, ps)[..|ps|] == Ideal(want, ps);
    IdealIsGood(want, ps, imageSize, Max(Placed(want, ps, |ps|).value.1, imageSize));
  }

  lemma EndCovers(want: seq<nat>, ps: seq<Plane>, p: nat)
    requires |want| == |ps| && p < |ps|
    ensures Ideal(want, ps)[p] + ps[p].size <= EndBefore(want, ps, |ps|)
  {
    IdealValid(want, ps);
    if p < |ps| - 1 { Apart(want, ps, Ideal(want, ps), p, |ps| - 1); }
  }

  /** A plane at offset 0 that had more than 0 to clear. */
  lemma AtZeroIsBad(want: seq<nat>, ps: seq<Plane>, imageSize: nat, offs: seq<nat>, total: nat, p: nat)
    requires |want| == |ps| == |offs| && p < |ps| && offs[p] == 0 && Floor(want, ps, p) > 0
    requires p > 0 ==> offs[p - 1] == Offset(want, ps, p - 1)
    ensures !Good(want, ps, imageSize, offs, total)
  {
    FloorBounds(want, ps, p);
    if p > 0 { FollowsAt(want, ps, offs, p - 1); }
  }

  lemma NotCoveredIsBad(want: seq<nat>, ps: seq<Plane>, imageSize: nat, offs: seq<nat>, total: nat, p: nat)
    requires |ps| == |offs| && p < |ps| && offs[p] + ps[p].size >= U64
    ensures !Good(want, ps, imageSize, offs, total)
  {}

  /** What the loop has for plane p, when no sum before it wrapped. */
  lemma PlacedSoFar(want: seq<nat>, ps: seq<Plane>, p: nat)
    requires Inputs(want, ps) && Placed(want, ps, |ps|).Some? && p < |ps| && NoWrap(want, ps, p)
    ensures var offs := Placed(want, ps, |ps|).value.0;
      && EndBefore(want, ps, p) < U64 && offs[p] == Place(want[p], ps[p], EndBefore(want, ps, p))
      && (p > 0 ==> offs[p - 1] == Offset(want, ps, p - 1))
  {
    var offs := Placed(want, ps, |ps|).value.0;
    PlacedPrefix(want, ps, |ps|, p);
    PlacedPrefix(want, ps, |ps|, p + 1);
    PlacedIsIdeal(want, ps, p);
    assert offs[p] == offs[..p + 1][p];
    if p > 0 { assert offs[p - 1] == offs[..p][p - 1]; }
  }

  lemma WrapsToZero(want: nat, p: Plane, end: nat)
    requires want < U32 && IsPlane(p) && end < U64 && Max(want, end) + Alignment(p) - 1 >= U64
    ensures Place(want, p, end) == 0 && Max(want, end) > 0
  {}

  /** The first plane whose sums leave 64 bits spoils the layout: it lands at offset 0, below what it must
      clear, or no 64-bit total covers it. */
  lemma WrapIsBad(want: seq<nat>, ps: seq<Plane>, imageSize: nat, p: nat)
    requires Inputs(want, ps) && Placed(want, ps, |ps|).Some? && p < |ps|
    requires NoWrap(want, ps, p) && !NoWrap(want, ps, p + 1)
    ensures var (offs, end) := Placed(want, ps, |ps|).value; !Good(want, ps, imageSize, offs, Max(end, imageSize))
  {
    var (offs, end) := Placed(want, ps, |ps|).value;
    PlacedSoFar(want, ps, p);
    if Floor(want, ps, p) + Alignment(ps[p]) - 1 >= U64 {
      WrapsToZero(want[p], ps[p], EndBefore(want, ps, p));
      AtZeroIsBad(want, ps, imageSize, offs, Max(end, imageSize), p);
    } else {
      PlaceIdeal(want, ps, p, EndBefore(want, ps, p));
      NotCoveredIsBad(want, ps, imageSize, offs, Max(end, imageSize), p);
    }
  }

  lemma {:induction false} FirstWrap(want: seq<nat>, ps: seq<Plane>, n: nat) returns (p: nat)
    requires |want| == |ps| && n <= |ps| && !NoWrap(want, ps, n)
    ensures p < n && NoWrap(want, ps, p) && !NoWrap(want, ps, p + 1)
  {
    if NoWrap(want, ps, n - 1) { p := n - 1; } else { p := FirstWrap(want, ps, n - 1); }
  }

  /** What the call returns is usable exactly when no sum of the ideal layout leaves 64 bits. */
  lemma GoodExactly(want: seq<nat>, ps: seq<Plane>, imageSize: nat)
    requires Inputs(want, ps) && imageSize < U64 && Placed(want, ps, |ps|).Some?
    ensures var (offs, end) := Placed(want, ps, |ps|).value;
      Good(want, ps, imageSize, offs, Max(end, imageSize)) <==> NoWrap(want, ps, |ps|)
  {
    if NoWrap(want, ps, |ps|) {
      NoWrapIsGood(want, ps, imageSize);
    } else {
      var p := FirstWrap(want, ps, |ps|);
      WrapIsBad(want, ps, imageSize, p);
    }
  }

  lemma LargeAlignment(floor: nat, a: nat)
    requires a > 0 && floor + a - 1 >= U64 && floor > 0
    ensures RoundUp(floor, a) >= U32
  {
    RoundUpLeast(floor, a, 0);
    assert RoundUp(floor, a) >= a;
  }

  /** The first wrap, unless every offset before it already needs too much, is paid for by a valid layout. */
  lemma WrapNeedsMore(want: seq<nat>, ps: seq<Plane>, offs: seq<nat>, q: nat)
    requires Inputs(want, ps) && Valid(want, ps, offs) && q < |ps| && NoWrap(want, ps, q) && !NoWrap(want, ps, q + 1)
    requires Placed(want, ps, |ps|).None?
    ensures exists p :: 0 <= p < |ps| && offs[p] >= U32
  {
    IdealLeast(want, ps, offs, q);
    if Floor(want, ps, q) + Alignment(ps[q]) - 1 >= U64 {
      LargeAlignment(Floor(want, ps, q), Alignment(ps[q]));
      assert offs[q] >= U32;
    } else if q + 1 < |ps| {
      assert Follows(ps, offs, q);
    } else {
      LastPlaneRefused(want, ps, offs);
    }
  }

  lemma LastPlaneRefused(want: seq<nat>, ps: seq<Plane>, offs: seq<nat>)
    requires Inputs(want, ps) && Valid(want, ps, offs) && ps != [] && NoWrap(want, ps, |ps| - 1)
    requires Floor(want, ps, |ps| - 1) + Alignment(ps[|ps| - 1]) - 1 < U64 && Placed(want, ps, |ps|).None?
    ensures exists p :: 0 <= p < |ps| && offs[p] >= U32
  {
    var q := |ps| - 1;
    PlacedIsIdeal(want, ps, q);
    if Placed(want, ps, q).Some? {
      PlaceIdeal(want, ps, q, Placed(want, ps, q).value.1);
      IdealLeast(want, ps, offs, q);
      assert offs[q] >= U32;
    } else {
      var p := OneTooFar(want, ps, q);
      IdealLeast(want, ps, offs, p);
    }
  }

  /** The call refuses for its offsets only when no valid layout has 32-bit offsets. */
  lemma RefusesOnlyWhenImpossible(want: seq<nat>, ps: seq<Plane>, offs: seq<nat>)
    requires Inputs(want, ps) && Placed(want, ps, |ps|).None? && Valid(want, ps, offs)
    ensures exists p :: 0 <= p < |ps| && offs[p] >= 0x1_0000_0000
  {
    if NoWrap(want, ps, |ps|) {
      PlacedIsIdeal(want, ps, |ps|);
      var p := OneTooFar(want, ps, |ps|);
      IdealLeast(want, ps, offs, p);
    } else {
      var q := FirstWrap(want, ps, |ps|);
      WrapNeedsMore(want, ps, offs, q);
    }
  }

  lemma PlacedStep(want: seq<nat>, ps: seq<Plane>, n: nat, offs: seq<nat>, end: nat, o: nat)
    requires Inputs(want, ps) && n < |ps| && Placed(want, ps, n) == Some((offs, end))
    requires Place(want[n], ps[n], end) == o < U32
    ensures Placed(want, ps, n + 1) == Some((offs + [o], Wrap(o + ps[n].size)))
  {}

  predicate Covers(off: nat, p: Plane, at: nat) { off <= at < off + p.size }

  /** A plane at offset 1 with a reported size near 2^64 lets the next plane land inside it: byte 1 is in both. */
  lemma WrapOverlaps(want: seq<nat>, ps: seq<Plane>, next: nat)
    requires want == [1, 0] && ps == [Plane(U64 - 1, 1), Plane(next, 1)] && 2 <= next < U64
    ensures Inputs(want, ps) && Placed(want, ps, 2) == Some(([1] + [0], next))
    ensures Covers(1, ps[0], 1) && Covers(0, ps[1], 1)
  {
    PlaceUnaligned(1, ps[0], 0);
    PlacedStep(want, ps, 0, [], 0, 1);
    assert [] + [1] == [1];
    PlaceUnaligned(0, ps[1], 0);
    PlacedStep(want, ps, 1, [1], 0, 0);
  }

  lemma PlaceUnaligned(want: nat, p: Plane, end: nat)
    requires want < U32 && IsPlane(p) && p.alignment == 1 && end < U64
    ensures Place(want, p, end) == Max(want, end)
  {
    RoundDownIsDivTimes(Max(want, end), 1);
  }

  // ---- the call -------------------------------------------------------------------------------

  method PlaceOne(want: nat, p: Plane, end: nat) returns (o: nat)
    requires want < U32 && IsPlane(p) && end < U64
    ensures o == Place(want, p, end)
  {
    var a: nat := if p.alignment != 0 then p.alignment else 1;
    o := if want > end then want else end;
    WrapIsMod(o + a - 1);
    RoundDownIsDivTimes((o + a - 1) % U64, a);
    o := (o + a - 1) % U64 / a * a;
  }

  method PlaceAll(offsets: seq<nat>, ps: seq<Plane>) returns (r: Option<(seq<nat>, nat)>)
    requires Inputs(offsets, ps)
    ensures r == Placed(offsets, ps, |ps|)
  {
    var offs: seq<nat>, end: nat := [], 0;
    for p := 0 to |ps|
      invariant Placed(offsets, ps, p) == Some((offs, end))
    {
      var o := PlaceOne(offsets[p], ps[p], end);
      if o >= U32 {
        PlacedPrefixNone(offsets, ps, |ps|, p + 1);
        return None;
      }
      WrapIsMod(o + ps[p].size);
      offs, end := offs + [o], (o + ps[p].size) % U64;
    }
    r := Some((offs, end));
  }

  /** nvg_plane_layout for any number of planes: `queried` and `accepted` are the driver's answers to the
      query image and to the image with the computed offsets. Nothing is written unless it succeeds. */
  method Layout(offsets: array<nat>, totalSize: array<nat>, ps: seq<Plane>, queried: bool, accepted: bool,
                imageSize: nat)
    returns (ok: bool)
    requires offsets.Length == |ps| && totalSize.Length == 1 && totalSize != offsets
    requires Inputs(offsets[..], ps) && imageSize < U64
    modifies offsets, totalSize
    ensures ok <==> queried && accepted && Placed(old(offsets[..]), ps, |ps|).Some?
    ensures ok ==> var (offs, end) := Placed(old(offsets[..]), ps, |ps|).value;
      offsets[..] == offs && totalSize[0] == Max(end, imageSize)
    ensures !ok ==> offsets[..] == old(offsets[..]) && totalSize[..] == old(totalSize[..])
    ensures ok ==>
      (Good(old(offsets[..]), ps, imageSize, offsets[..], totalSize[0]) <==> NoWrap(old(offsets[..]), ps, |ps|))
    ensures ok && NoWrap(old(offsets[..]), ps, |ps|) ==> Least(old(offsets[..]), ps, offsets[..])
    ensures !ok && queried && accepted ==> TooFar(old(offsets[..]), ps)
  {
    LayoutMeans(offsets[..], ps, imageSize);
    if !queried { return false; }
    var placed := PlaceAll(offsets[..], ps);
    if placed.None? || !accepted { return false; }
    var (offs, end) := placed.value;
    for p := 0 to |ps|
      invariant forall q :: 0 <= q < p ==> offsets[q] == offs[q]
    {
      offsets[p] := offs[p];
    }
    totalSize[0] := if imageSize > end then imageSize else end;
    ok := true;
  }

  /** A layout a caller may ask for: no plane before the wanted offset, every one aligned, none over the next. */
  ghost predicate Lays(want: seq<nat>, ps: seq<Plane>, offs: seq<nat>) {
    && |want| == |ps| == |offs|
    && (forall p :: 0 <= p < |ps| ==>
          want[p] <= offs[p] && (ps[p].alignment == 0 || offs[p] % ps[p].alignment == 0))
    && forall p :: 0 <= p < |ps| - 1 ==> offs[p] + ps[p].size <= offs[p + 1]
  }

  lemma LaysIsValid(want: seq<nat>, ps: seq<Plane>, offs: seq<nat>)
    ensures Lays(want, ps, offs) <==> Valid(want, ps, offs)
  {
    if |want| == |ps| == |offs| {
      forall p | 0 <= p < |ps|
        ensures Multiple(offs[p], Alignment(ps[p])) <==> ps[p].alignment == 0 || offs[p] % ps[p].alignment == 0
      {
        MultipleIsMod(offs[p], Alignment(ps[p]));
      }
      forall p | 0 <= p < |ps| - 1 ensures Follows(ps, offs, p) <==> offs[p] + ps[p].size <= offs[p + 1] {}
    }
  }

  /** Every such layout has an offset that does not fit 32 bits. */
  ghost predicate TooFar(want: seq<nat>, ps: seq<Plane>) {
    forall offs :: Lays(want, ps, offs) ==> exists p :: 0 <= p < |ps| && offs[p] >= 0x1_0000_0000
  }

  /** It is one, and no other has any plane lower. */
  ghost predicate Least(want: seq<nat>, ps: seq<Plane>, offs: seq<nat>) {
    && Lays(want, ps, offs)
    && forall other, p :: Lays(want, ps, other) && 0 <= p < |ps| ==> offs[p] <= other[p]
  }

  lemma IdealIsLeast(want: seq<nat>, ps: seq<Plane>)
    requires |want| == |ps|
    ensures Least(want, ps, Ideal(want, ps))
  {
    IdealValid(want, ps);
    LaysIsValid(want, ps, Ideal(want, ps));
    forall other, p | Lays(want, ps, other) && 0 <= p < |ps| ensures Offset(want, ps, p) <= other[p] {
      LaysIsValid(want, ps, other);
      IdealLeast(want, ps, other, p);
    }
  }

  lemma LayoutMeans(want: seq<nat>, ps: seq<Plane>, imageSize: nat)
    requires Inputs(want, ps) && imageSize < U64
    ensures var r := Placed(want, ps, |ps|);
      if r.None? then TooFar(want, ps)
      else Good(want, ps, imageSize, r.value.0, Max(r.value.1, imageSize)) <==> NoWrap(want, ps, |ps|)
    ensures var r := Placed(want, ps, |ps|);
      r.Some? && NoWrap(want, ps, |ps|) ==> Least(want, ps, r.value.0)
  {
    if Placed(want, ps, |ps|).Some? {
      GoodExactly(want, ps, imageSize);
      if NoWrap(want, ps, |ps|) {
        PlacedIsIdeal(want, ps, |ps|);
        IdealIsLeast(want, ps);
      }
    } else {
      forall offs | Lays(want, ps, offs) ensures exists p :: 0 <= p < |ps| && offs[p] >= 0x1_0000_0000 {
        LaysIsValid(want, ps, offs);
        RefusesOnlyWhenImpossible(want, ps, offs);
      }
    }
  }

  lemma PlacedPrefixNone(want: seq<nat>, ps: seq<Plane>, n: nat, p: nat)
    requires Inputs(want, ps) && p <= n <= |ps| && Placed(want, ps, p).None?
    ensures Placed(want, ps, n).None?
  {
    if p < n { PlacedPrefixNone(want, ps, n - 1, p); }
  }
}
