/** Residues, word sizes and the greatest common divisor, as far as the other modules need them. */
module ModArith {
  const U32: nat := 0x1_0000_0000
  const U64: nat := 0x1_0000_0000_0000_0000

  lemma MulMono(a: nat, b: nat, c: nat)
    requires a <= b
    ensures a * c <= b * c
  {}

  lemma MultipleApart(e: int, d: nat)
    ensures e >= 1 ==> e * d >= d
    ensures e <= -1 ==> e * d + d <= 0
  {
    if e >= 1 { MulMono(1, e, d); }
    if e <= -1 { MulMono(1, -e, d); }
  }

  lemma DivModUnique(n: int, m: int, q: int, r: int)
    requires 0 <= r < m && n == q * m + r
    ensures n / m == q && n % m == r
  {
    assert n == (n / m) * m + n % m;
    assert (n / m - q) * m == r - n % m;
    MultipleApart(n / m - q, m);
  }

  lemma ModShift(x: int, k: int, m: int)
    requires m > 0
    ensures (x + k * m) % m == x % m
  {
    assert x + k * m == (x / m + k) * m + x % m;
    DivModUnique(x + k * m, m, x / m + k, x % m);
  }

  /** Congruent numbers differ by a multiple of m. */
  lemma Quotient(a: int, b: int, m: int) returns (k: int)
    requires m > 0 && a % m == b % m
    ensures a == b + k * m
  {
    k := a / m - b / m;
    assert a == (a / m) * m + a % m && b == (b / m) * m + b % m;
  }

  lemma AddCong(a: int, b: int, c: int, m: int)
    requires m > 0 && a % m == b % m
    ensures (a + c) % m == (b + c) % m
  {
    var k := Quotient(a, b, m);
    ModShift(b + c, k, m);
  }

  lemma Spread(b: int, k: int, m: int, c: int)
    ensures (b + k * m) * c == b * c + (k * c) * m
  {
    assert (b + k * m) * c == b * c + (k * m) * c;
    assert (k * m) * c == k * (m * c) == k * (c * m) == (k * c) * m;
  }

  lemma MulCong(a: int, b: int, c: int, m: int)
    requires m > 0 && a % m == b % m
    ensures (a * c) % m == (b * c) % m
  {
    var k := Quotient(a, b, m);
    Spread(b, k, m, c);
    ModShift(b * c, k * c, m);
  }

  lemma ModTwice(x: int, m: int)
    requires m > 0
    ensures x % m % m == x % m
  {
    DivModUnique(x % m, m, 0, x % m);
  }

  function Gcd(a: nat, b: nat): nat
    decreases b
  {
    if b == 0 then a else Gcd(b, a % b)
  }

  predicate Divides(d: nat, x: int) {
    d > 0 && x % d == 0
  }

  lemma DividesSum(d: nat, x: int, y: int, q: int)
    requires Divides(d, x) && Divides(d, y)
    ensures Divides(d, x + q * y)
  {
    var k := x / d;
    var l := y / d;
    assert x + q * y == 0 + (k + q * l) * d by {
      assert x == k * d && y == l * d;
    }
    ModShift(0, k + q * l, d);
  }

  /** Gcd is a common divisor, and every common divisor divides it. */
  lemma {:induction false} GcdMeaning(a: nat, b: nat, d: nat)
    requires a > 0 || b > 0
    ensures Gcd(a, b) > 0
    ensures Divides(Gcd(a, b), a) && Divides(Gcd(a, b), b)
    ensures Divides(d, a) && Divides(d, b) ==> Divides(d, Gcd(a, b))
    decreases b
  {
    if b == 0 {
      DivModUnique(a, a, 1, 0);
      DivModUnique(0, a, 0, 0);
    } else {
      var g := Gcd(b, a % b);
      assert a == a % b + (a / b) * b;
      if Divides(d, a) && Divides(d, b) {
        assert a % b == a + (-(a / b)) * b;
        DividesSum(d, a, b, -(a / b));
      }
      GcdMeaning(b, a % b, d);
      DividesSum(g, a % b, b, a / b);
    }
  }
}
