/** The tier hash: a base-257 polynomial plus a length term, both modulo 2^31, with the
    length term recovered from one known entry of the table. */
module TierHash {
  import opened ModArith

  const M31: nat := 0x8000_0000
  const I62: int := 0x4000_0000_0000_0000

  type byte = b: nat | b < 256
  type u32 = x: nat | x < U32
  type u31 = x: nat | x < M31

  // ---- extended Euclid ------------------------------------------------------------

  /** One division step keeps the cofactor identity and the signs' alternation. */
  lemma EuclidStep(m: nat, t: int, newt: int, r: nat, newr: nat, sign: int, q: int)
    requires sign == 1 || sign == -1
    requires r * newt - newr * t == sign * m && sign * newt >= 0 && sign * t <= 0 && q >= 0
    ensures newr * (t - q * newt) - (r - q * newr) * newt == -sign * m
    ensures -sign * (t - q * newt) >= 0 && -sign * newt <= 0
  {
    assert newr * (t - q * newt) - (r - q * newr) * newt == newr * t - r * newt;
    assert q * (sign * newt) >= 0;
    assert -sign * (t - q * newt) == -sign * t + q * (sign * newt);
  }

  /** The cofactors are no larger than the modulus. */
  lemma Cofactor(m: nat, t: int, newt: int, r: nat, newr: nat, sign: int)
    requires sign == 1 || sign == -1
    requires r * newt - newr * t == sign * m && sign * newt >= 0 && sign * t <= 0
    ensures r * (sign * newt) <= m
    ensures r > 0 ==> 0 - m <= newt <= m
  {
    assert r * (sign * newt) + newr * (-sign * t) == m;
    assert newr * (-sign * t) >= 0;
    if r > 0 { assert sign * newt <= r * (sign * newt); }
  }

  /** The loop's invariant: t and newt are the cofactors of a for the remainders r and newr. */
  ghost predicate Euclid(m: nat, a: nat, t: int, newt: int, r: int, newr: int, sign: int) {
    && 0 <= newr < r <= m
    && Gcd(r, newr) == Gcd(m, a)
    && (sign == 1 || sign == -1)
    && r * newt - newr * t == sign * m && sign * newt >= 0 && sign * t <= 0
    && 0 - m < t < m
    && (t * a - r) % m == 0 && (newt * a - newr) % m == 0
  }

  lemma EuclidStart(m: nat, a: nat)
    requires 0 < a < m
    ensures Euclid(m, a, 0, 1, m, a, 1)
  {
    DivModUnique(0 - m, m, -1, 0);
    DivModUnique(0, m, 0, 0);
  }

  lemma NewCofactor(m: nat, a: nat, t: int, newt: int, r: int, newr: int, q: int)
    requires m > 0 && (t * a - r) % m == 0 && (newt * a - newr) % m == 0
    ensures ((t - q * newt) * a - (r - q * newr)) % m == 0
  {
    DividesSum(m, t * a - r, newt * a - newr, -q);
    assert (t - q * newt) * a - (r - q * newr) == (t * a - r) + (-q) * (newt * a - newr);
  }

  lemma Remainder(r: int, newr: int)
    requires 0 < newr <= r
    ensures r / newr > 0 && r - r / newr * newr == r % newr
  {}

  lemma EuclidKeeps(m: nat, a: nat, t: int, newt: int, r: int, newr: int, sign: int)
    requires m > 0 && newr != 0 && Euclid(m, a, t, newt, r, newr, sign)
    ensures var q := r / newr; Euclid(m, a, newt, t - q * newt, newr, r - q * newr, -sign)
    ensures 0 - 2 * m <= r / newr * newt <= 2 * m && 0 - m <= t - r / newr * newt <= m
  {
    var q := r / newr;
    Remainder(r, newr);
    EuclidStep(m, t, newt, r, newr, sign, q);
    Cofactor(m, t, newt, r, newr, sign);
    Cofactor(m, newt, t - q * newt, newr, r - q * newr, -sign);
    MulMono(2, r, sign * newt);
    NewCofactor(m, a, t, newt, r, newr, q);
  }

  lemma Wrapped(m: nat, a: nat, t: int, g: nat)
    requires m > 0 && (t * a - g) % m == 0 && 0 - m < t < m
    ensures var inv := if t < 0 then t + m else t; (inv * a) % m == g % m
  {
    var inv := if t < 0 then t + m else t;
    AddCong(t * a - g, 0, g, m);
    if t < 0 {
      assert inv * a == t * a + a * m;
      ModShift(t * a, a, m);
    }
  }

  /** One round of the loop, with every product and difference inside int64_t. */
  method Divide(t: int, newt: int, r: int, newr: int, ghost m: nat, ghost a: nat, ghost sign: int)
    returns (t': int, newt': int, r': int, newr': int)
    requires 0 < m < I62 && newr != 0 && Euclid(m, a, t, newt, r, newr, sign)
    ensures Euclid(m, a, t', newt', r', newr', -sign) && 0 <= newr' < newr
  {
    var q := r / newr;
    EuclidKeeps(m, a, t, newt, r, newr, sign);
    assert -2 * I62 < q * newt < 2 * I62;
    var tmp := t - q * newt;
    assert -2 * I62 < tmp < 2 * I62;
    t', newt' := newt, tmp;
    tmp := r - q * newr;
    r', newr' := newr, tmp;
  }

  /** The loop of the source for any modulus: the result times a is the gcd modulo m, so an
      inverse whenever the two are coprime; no intermediate value leaves 64 bits. */
  method Inverse(a: nat, m: nat) returns (inv: nat)
    requires 0 < a < m < I62
    ensures inv < m && (inv * a) % m == Gcd(m, a) % m
    ensures Coprime(a, m) ==> (inv * a) % m == 1
  {
    var t: int, newt: int, r: int, newr: int := 0, 1, m, a;
    ghost var sign := 1;
    EuclidStart(m, a);
    while newr != 0
      invariant Euclid(m, a, t, newt, r, newr, sign)
      decreases newr
    {
      t, newt, r, newr := Divide(t, newt, r, newr, m, a, sign);
      sign := -sign;
    }
    Wrapped(m, a, t, r);
    if t < 0 { t := t + m; }
    inv := t;
    CoprimeGcd(a, m);
  }

  /** The only common divisor is 1. */
  ghost predicate Coprime(a: nat, m: nat) {
    forall d :: Divides(d, a) && Divides(d, m) ==> d == 1
  }

  lemma CoprimeGcd(a: nat, m: nat)
    requires 0 < a < m
    ensures Coprime(a, m) ==> Gcd(m, a) % m == 1
  {
    GcdMeaning(m, a, 1);
    if Gcd(m, a) == 1 { DivModUnique(1, m, 0, 1); }
  }

  lemma Coprime257()
    ensures Gcd(M31, 257) == 1
  {
    assert Gcd(M31, 257) == Gcd(257, 129) == Gcd(129, 128) == Gcd(128, 1) == Gcd(1, 0);
  }

  // ---- the length term ------------------------------------------------------------------

  function Up(r: u31): u31 {
    (r * 257 + 1) % M31
  }

  function Down(r: u31, inv: u31): u31 {
    ((r + M31 - 1) % M31 * inv) % M31
  }

  predicate IsInverse(inv: u31) {
    (inv * 257) % M31 == 1
  }

  lemma SumOfResidues(x: nat, y: nat)
    ensures (x % M31 + y) % M31 == (x + y) % M31
  {
    ModTwice(x, M31);
    AddCong(x % M31, x, y, M31);
  }

  lemma Cancel(x: int, inv: u31)
    requires IsInverse(inv)
    ensures (x * 257 * inv) % M31 == x % M31 == (x * inv * 257) % M31
  {
    assert x * 257 * inv == inv * 257 * x == x * inv * 257;
    DivModUnique(1, M31, 0, 1);
    MulCong(inv * 257, 1, x, M31);
  }

  lemma MinusOne(r: u31)
    ensures (Up(r) + M31 - 1) % M31 == (r * 257) % M31
  {
    SumOfResidues(r * 257 + 1, M31 - 1);
    ModShift(r * 257, 1, M31);
  }

  lemma PlusOne(r: u31)
    ensures ((r + M31 - 1) % M31 + 1) % M31 == r
  {
    SumOfResidues(r + M31 - 1, 1);
    DivModUnique(r + M31, M31, 1, r);
  }

  lemma ProductOfResidues(x: nat, y: nat)
    ensures (x % M31 * y) % M31 == (x * y) % M31
  {
    ModTwice(x, M31);
    MulCong(x % M31, x, y, M31);
  }

  /** Stepping up and stepping down undo each other. */
  lemma DownUp(r: u31, inv: u31)
    requires IsInverse(inv)
    ensures Down(Up(r), inv) == r
  {
    MinusOne(r);
    ProductOfResidues(r * 257, inv);
    Cancel(r, inv);
    DivModUnique(r, M31, 0, r);
  }

  lemma UpDown(r: u31, inv: u31)
    requires IsInverse(inv)
    ensures Up(Down(r, inv)) == r
  {
    var v := (r + M31 - 1) % M31;
    assert (Down(r, inv) * 257) % M31 == v by {
      ProductOfResidues(v * inv, 257);
      Cancel(v, inv);
      DivModUnique(v, M31, 0, v);
    }
    SumOfResidues(Down(r, inv) * 257, 1);
    PlusOne(r);
  }

  /** R(L) for the term R0 at length 0. */
  function R(r0: u31, length: nat): u31 {
    if length == 0 then r0 else Up(R(r0, length - 1))
  }

  function StepDown(r: u31, length: nat, inv: u31): u31
    decreases length
  {
    if length == 0 then r else StepDown(Down(r, inv), length - 1, inv)
  }

  lemma {:induction false} DownThenUp(r: u31, length: nat, inv: u31)
    requires IsInverse(inv)
    ensures R(StepDown(r, length, inv), length) == r
    decreases length
  {
    if length > 0 {
      DownThenUp(Down(r, inv), length - 1, inv);
      UpDown(r, inv);
    }
  }

  lemma {:induction false} UpThenDown(r0: u31, length: nat, inv: u31)
    requires IsInverse(inv)
    ensures StepDown(R(r0, length), length, inv) == r0
  {
    if length > 0 {
      DownUp(R(r0, length - 1), inv);
      UpThenDown(r0, length - 1, inv);
    }
  }

  // ---- the polynomial -----------------------------------------------------------------------

  function Pow257(n: nat): nat {
    if n == 0 then 1 else Pow257(n - 1) * 257
  }

  /** The sum of s[i] * 257^i. */
  function Poly(s: seq<byte>): nat {
    if s == [] then 0 else Poly(s[..|s| - 1]) + s[|s| - 1] * Pow257(|s| - 1)
  }

  /** The hash of a name, for the table's length term r0. */
  function TrueHash(s: seq<byte>, r0: u31): u31 {
    (Poly(s) + R(r0, |s|)) % M31
  }

  /** The polynomial from its front: no bytes are 0, and each byte in front weighs 1 and the rest 257 times as much. */
  lemma {:induction false} PolyFromFront(c: byte, s: seq<byte>)
    ensures Poly([]) == 0 && Poly([c] + s) == c + 257 * Poly(s)
  {
    if s == [] {
      assert ([c] + s)[..0] == [] && Pow257(0) == 1;
    } else {
      var n := |s| - 1;
      assert ([c] + s)[..|s|] == [c] + s[..n];
      PolyFromFront(c, s[..n]);
      Weight(s[n], Pow257(n));
    }
  }

  lemma Weight(c: nat, pow: nat)
    ensures c * (pow * 257) == 257 * (c * pow)
  {}

  /** The hash, byte by byte: the empty name has the length term itself, and a byte in front turns a hash h into
      257 * h plus the byte plus 1, modulo 2^31. */
  lemma HashFromFront(c: byte, s: seq<byte>, r0: u31)
    ensures TrueHash([], r0) == r0
    ensures TrueHash([c] + s, r0) == (257 * TrueHash(s, r0) + c + 1) % 0x8000_0000
  {
    PolyFromFront(c, s);
    DivModUnique(r0, M31, 0, r0);
    var p, r := Poly(s), R(r0, |s|);
    var up := r * 257 + 1;
    ModTwice(up, M31);
    AddCong(up % M31, up, c + 257 * p, M31);
    ModTwice(p + r, M31);
    MulCong((p + r) % M31, p + r, 257, M31);
    AddCong((p + r) % M31 * 257, (p + r) * 257, c + 1, M31);
  }

  /** Names that differ in their first byte differ in their hash by as much. */
  lemma FirstByteShifts(c: byte, d: byte, s: seq<byte>, r0: u31)
    requires c <= d
    ensures TrueHash([d] + s, r0) == (TrueHash([c] + s, r0) + (d - c)) % 0x8000_0000
  {
    HashFromFront(c, s, r0);
    HashFromFront(d, s, r0);
    var h := 257 * TrueHash(s, r0) + c + 1;
    ModTwice(h, M31);
    AddCong(h % M31, h, d - c, M31);
  }

  lemma PolyStep(s: seq<byte>, i: nat)
    requires i < |s|
    ensures Poly(s[..i + 1]) == Poly(s[..i]) + s[i] * Pow257(i) && Pow257(i + 1) == Pow257(i) * 257
  {
    assert s[..i + 1][..i] == s[..i];
  }

  method Pf(s: seq<byte>) returns (acc: u31)
    ensures acc == Poly(s) % M31
  {
    acc := 0;
    var p: u31 := 1;
    for i := 0 to |s|
      invariant acc == Poly(s[..i]) % M31
      invariant p == Pow257(i) % M31
    {
      PolyStep(s, i);
      acc, p := PfStep(acc, p, s[i], Poly(s[..i]), Pow257(i));
    }
    assert s[..|s|] == s;
  }

  /** One round of `Pf`, whose 64-bit sums and products do not wrap. */
  method PfStep(acc: u31, p: u31, c: byte, ghost sum: nat, ghost pow: nat) returns (acc': u31, p': u31)
    requires acc == sum % M31 && p == pow % M31
    ensures acc' == (sum + c * pow) % M31 && p' == pow * 257 % M31
  {
    AccStep(acc, sum, c, p, pow);
    MulMono(c, 255, p);
    assert acc + c * p < U64 && p * 257 < U64;
    acc' := (acc + c * p) % M31;
    ModTwice(pow, M31);
    MulCong(p, pow, 257, M31);
    p' := p * 257 % M31;
  }

  lemma AccStep(acc: u31, sum: nat, c: nat, p: u31, pow: nat)
    requires acc == sum % M31 && p == pow % M31
    ensures (acc + c * p) % M31 == (sum + c * pow) % M31
  {
    ModTwice(sum, M31);
    AddCong(acc, sum, c * p, M31);
    ModTwice(pow, M31);
    MulCong(p, pow, c, M31);
    AddCong(c * p, c * pow, sum, M31);
  }

  /** A product of two residues fits 64 bits. */
  lemma ProductFits(a: u31, b: u31)
    ensures a * b < U64
  {
    MulMono(a, M31, b);
  }

  /** The two 32-bit values with given low 31 bits. */
  lemma TopBit(lo: u31, h: u32)
    ensures h % M31 == lo <==> h == lo || h == lo + M31
  {
    if h < M31 { DivModUnique(h, M31, 0, h); } else { DivModUnique(h, M31, 1, h - M31); }
  }

  // ---- the program's globals ------------------------------------------------------------------

  class Calibrator {
    var modinv257: u31
    var R0: u31

    constructor ()
      ensures IsInverse(modinv257)
    {
      var inv := Inverse(257, M31);
      Coprime257();
      modinv257 := inv;
      R0 := 0;
    }

    method Calibrate(name: seq<byte>, hash: u32)
      requires IsInverse(modinv257)
      modifies `R0
      ensures TrueHash(name, R0) == hash % M31
      ensures forall r0: u31 :: hash % M31 == TrueHash(name, r0) ==> R0 == r0
    {
      var pf := Pf(name);
      assert hash % M31 + M31 < U32;
      var rn: u31 := (hash % M31 + M31 - pf) % M31;
      ghost var top := rn;
      var length: nat := |name|;
      while length > 0
        invariant StepDown(rn, length, modinv257) == StepDown(top, |name|, modinv257)
      {
        assert rn + M31 < U32;
        ProductFits((rn + M31 - 1) % M31, modinv257);
        rn := (rn + M31 - 1) % M31 * modinv257 % M31;
        length := length - 1;
      }
      R0 := rn;
      CalibrationHolds(name, hash, top, modinv257);
      forall r0: u31 | hash % M31 == TrueHash(name, r0) ensures R0 == r0 {
        CalibrationUnique(name, hash, top, r0, modinv257);
      }
    }

    method Rlen(length: nat) returns (r: u31)
      ensures r == R(R0, length)
    {
      r := R0;
      for i := 0 to length
        invariant r == R(R0, i)
      {
        assert r * 257 + 1 < U64;
        r := (r * 257 + 1) % M31;
      }
    }

    method HashCandidates(s: seq<byte>) returns (lo: u32, hi: u32)
      ensures lo == TrueHash(s, R0)
      ensures forall h: u32 :: h % M31 == TrueHash(s, R0) <==> h == lo || h == hi
    {
      var pf := Pf(s);
      var r := Rlen(|s|);
      SumOfResidues(Poly(s), r);
      assert pf + r < U64;
      lo := (pf + r) % M31;
      hi := lo + M31;                   // lo < 2^31, so setting bit 31 is adding it
      forall h: u32 ensures h % M31 == lo <==> h == lo || h == hi {
        TopBit(lo, h);
      }
    }
  }

  lemma Complement(p: u31, h: u31, rn: u31)
    ensures (p + rn) % M31 == h <==> rn == (h + M31 - p) % M31
  {
    if p + rn < M31 { DivModUnique(p + rn, M31, 0, p + rn); } else { DivModUnique(p + rn, M31, 1, p + rn - M31); }
    if h < p { DivModUnique(h + M31 - p, M31, 0, h + M31 - p); } else { DivModUnique(h + M31 - p, M31, 1, h - p); }
  }

  lemma TopIsR(name: seq<byte>, hash: u32, top: u31, rn: u31)
    requires top == (hash % M31 + M31 - Poly(name) % M31) % M31
    ensures (Poly(name) + rn) % M31 == hash % M31 <==> rn == top
  {
    ModTwice(Poly(name), M31);
    AddCong(Poly(name) % M31, Poly(name), rn, M31);
    Complement(Poly(name) % M31, hash % M31, rn);
  }

  lemma CalibrationHolds(name: seq<byte>, hash: u32, top: u31, inv: u31)
    requires IsInverse(inv) && top == (hash % M31 + M31 - Poly(name) % M31) % M31
    ensures TrueHash(name, StepDown(top, |name|, inv)) == hash % M31
  {
    DownThenUp(top, |name|, inv);
    TopIsR(name, hash, top, top);
  }

  lemma CalibrationUnique(name: seq<byte>, hash: u32, top: u31, r0: u31, inv: u31)
    requires IsInverse(inv) && top == (hash % M31 + M31 - Poly(name) % M31) % M31
    requires hash % M31 == TrueHash(name, r0)
    ensures StepDown(top, |name|, inv) == r0
  {
    TopIsR(name, hash, top, R(r0, |name|));
    UpThenDown(r0, |name|, inv);
  }

  /** Every entry of the table carries the low 31 bits of its hash under one length term. */
  predicate HashedWith(table: seq<(seq<byte>, u32)>, r0: u31) {
    forall e :: e in table ==> e.1 % M31 == TrueHash(e.0, r0)
  }

  /** main's calibration and self-check: it never warns, and if every entry of the table
      was hashed with one length term, calibrating on any entry predicts them all. */
  method CalibrateAndCheck(table: seq<(seq<byte>, u32)>, anchor: nat) returns (c: Calibrator, warns: bool)
    requires anchor < |table|
    ensures !warns
    ensures forall r0: u31 :: HashedWith(table, r0) ==> c.R0 == r0
    ensures forall r0: u31 :: HashedWith(table, r0) ==> HashedWith(table, c.R0)
  {
    c := new Calibrator();
    c.Calibrate(table[anchor].0, table[anchor].1);
    var lo, _ := c.HashCandidates(table[anchor].0);
    warns := lo != table[anchor].1 % M31;
    assert table[anchor] in table;
  }
}
