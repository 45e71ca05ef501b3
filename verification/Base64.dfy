/** The tiers file's base64 codec (the alphabet and padding of section 4 of RFC 4648; the
    decoder skips every byte outside the alphabet, padding included). */
module Base64 {
  import opened ModArith

  type byte = b: nat | b < 256
  type digit = d: nat | d < 64

  const PAD: byte := 61   // '='

  /** B64[v]. */
  function Letter(v: digit): byte {
    if v < 26 then 65 + v             // 'A'..'Z'
    else if v < 52 then 97 + v - 26   // 'a'..'z'
    else if v < 62 then 48 + v - 52   // '0'..'9'
    else if v == 62 then 43 else 47   // '+', '/'
  }

  function Value(c: byte): int {
    if 65 <= c <= 90 then c - 65
    else if 97 <= c <= 122 then c - 97 + 26
    else if 48 <= c <= 57 then c - 48 + 52
    else if c == 43 then 62 else if c == 47 then 63 else -1
  }

  lemma LetterValue(v: digit)
    ensures Value(Letter(v)) == v
  {}

  // ---- what the two directions mean ----------------------------------------------------

  /** The values of the alphabet bytes of a text, in order. */
  function Digits(s: seq<byte>): seq<digit> {
    if s == [] then []
    else if Value(s[0]) < 0 then Digits(s[1..])
    else [Value(s[0])] + Digits(s[1..])
  }

  predicate Below(ds: seq<nat>, base: nat) {
    forall i :: 0 <= i < |ds| ==> ds[i] < base
  }

  /** Positional notation, most significant first. */
  function FromDigits(base: nat, ds: seq<nat>): nat {
    if ds == [] then 0 else FromDigits(base, ds[..|ds| - 1]) * base + ds[|ds| - 1]
  }

  function ToDigits(base: nat, n: nat, x: nat): (ds: seq<nat>)
    requires base > 0
    ensures |ds| == n && Below(ds, base)
    decreases n
  {
    if n == 0 then [] else ToDigits(base, n - 1, x / base) + [x % base]
  }

  function ZeroPadded(ds: seq<nat>, n: nat): seq<nat>
    decreases n - |ds|
  {
    if |ds| >= n then ds else ZeroPadded(ds + [0], n)
  }

  /** Two to four digits as one to three bytes, and back: the same 24-bit word. */
  function GroupBytes(q: seq<digit>): (b: seq<byte>)
    requires 2 <= |q| <= 4
    ensures |b| == |q| - 1
  {
    ToDigits(256, 3, FromDigits(64, ZeroPadded(q, 4)))[..|q| - 1]
  }

  function GroupDigits(b: seq<byte>): (q: seq<digit>)
    requires 1 <= |b| <= 3
    ensures |q| == |b| + 1
  {
    ToDigits(64, 4, FromDigits(256, ZeroPadded(b, 3)))[..|b| + 1]
  }

  /** The bytes of a digit string; a single left-over digit gives none. */
  function Bytes(q: seq<digit>): seq<byte> {
    if |q| >= 4 then GroupBytes(q[..4]) + Bytes(q[4..])
    else if |q| >= 2 then GroupBytes(q)
    else []
  }

  function Decode(s: seq<byte>): seq<byte> {
    Bytes(Digits(s))
  }

  function Letters(q: seq<digit>): seq<byte> {
    seq(|q|, i requires 0 <= i < |q| => Letter(q[i]))
  }

  function Padding(n: nat): seq<byte> {
    if n == 2 then [PAD, PAD] else if n == 1 then [PAD] else []
  }

  function EncodeGroup(b: seq<byte>): seq<byte>
    requires 1 <= |b| <= 3
  {
    Letters(GroupDigits(b)) + Padding(3 - |b|)
  }

  function Encode(b: seq<byte>): seq<byte> {
    if |b| >= 3 then EncodeGroup(b[..3]) + Encode(b[3..])
    else if |b| >= 1 then EncodeGroup(b)
    else []
  }

  // ---- round trip ------------------------------------------------------------------------

  lemma {:induction false} DigitsConcat(a: seq<byte>, b: seq<byte>)
    ensures Digits(a + b) == Digits(a) + Digits(b)
  {
    if a == [] {
      assert a + b == b;
    } else {
      assert (a + b)[1..] == a[1..] + b;
      DigitsConcat(a[1..], b);
    }
  }

  lemma {:induction false} FromTo(base: nat, n: nat, ds: seq<nat>)
    requires base > 0 && |ds| == n && Below(ds, base)
    ensures ToDigits(base, n, FromDigits(base, ds)) == ds
  {
    if n > 0 {
      var init, last := ds[..n - 1], ds[n - 1];
      FromTo(base, n - 1, init);
      DivModUnique(FromDigits(base, ds), base, FromDigits(base, init), last);
      assert ds == init + [last];
    }
  }

  function Power(base: nat, n: nat): nat {
    if n == 0 then 1 else Power(base, n - 1) * base
  }

  lemma {:induction false} ToFrom(base: nat, n: nat, x: nat)
    requires base > 0 && x < Power(base, n)
    ensures FromDigits(base, ToDigits(base, n, x)) == x
    decreases n
  {
    if n > 0 {
      var init := ToDigits(base, n - 1, x / base);
      assert ToDigits(base, n, x)[..n - 1] == init;
      assert x == x / base * base + x % base;
      if x / base >= Power(base, n - 1) { MulMono(Power(base, n - 1), x / base, base); }
      ToFrom(base, n - 1, x / base);
    }
  }

  lemma Carry(hi: nat, bound: nat, base: nat, d: nat)
    requires hi < bound && d < base
    ensures hi * base + d < bound * base
  {
    MulMono(hi + 1, bound, base);
    assert (hi + 1) * base == hi * base + base;
  }

  lemma {:induction false} FromBound(base: nat, ds: seq<nat>)
    requires base > 0 && Below(ds, base)
    ensures FromDigits(base, ds) < Power(base, |ds|)
  {
    if ds != [] {
      var init := ds[..|ds| - 1];
      FromBound(base, init);
      Carry(FromDigits(base, init), Power(base, |init|), base, ds[|ds| - 1]);
    }
  }

  lemma Three(x: nat, y: nat, z: nat)
    ensures ZeroPadded([x, y, z], 3) == [x, y, z] && ZeroPadded([x, y], 3) == [x, y, 0]
    ensures ZeroPadded([x], 3) == [x, 0, 0]
    ensures FromDigits(256, [x, y, z]) == (x * 256 + y) * 256 + z
  {
    assert [x, y] + [0] == [x, y, 0] && [x] + [0] == [x, 0] && [x, 0] + [0] == [x, 0, 0];
    assert ZeroPadded([x, 0], 3) == [x, 0, 0];
    assert [x, y, z][..2] == [x, y] && [x, y][..1] == [x] && [x][..0] == [];
    assert FromDigits(256, [x]) == x;
    assert FromDigits(256, [x, y]) == x * 256 + y;
  }

  lemma Four(w: nat, x: nat, y: nat, z: nat)
    ensures ZeroPadded([w, x, y, z], 4) == [w, x, y, z]
    ensures ZeroPadded([w, x, y], 4) == [w, x, y, 0] && ZeroPadded([w, x], 4) == [w, x, 0, 0]
    ensures FromDigits(64, [w, x, y, z]) == ((w * 64 + x) * 64 + y) * 64 + z
  {
    assert [w, x, y] + [0] == [w, x, y, 0] && [w, x] + [0] == [w, x, 0] && [w, x, 0] + [0] == [w, x, 0, 0];
    assert ZeroPadded([w, x, 0], 4) == [w, x, 0, 0];
    assert [w, x, y, z][..3] == [w, x, y] && [w, x, y][..2] == [w, x] && [w, x][..1] == [w] && [w][..0] == [];
    assert FromDigits(64, [w]) == w;
    assert FromDigits(64, [w, x]) == w * 64 + x;
    assert FromDigits(64, [w, x, y]) == (w * 64 + x) * 64 + y;
  }

  lemma FourDigits(x: nat)
    ensures ToDigits(64, 4, x) == [x / 262144 % 64, x / 4096 % 64, x / 64 % 64, x % 64]
  {
    assert x / 64 / 64 == x / 4096 && x / 4096 / 64 == x / 262144;
    assert ToDigits(64, 1, x / 262144) == [x / 262144 % 64];
    assert ToDigits(64, 2, x / 4096) == [x / 262144 % 64, x / 4096 % 64];
    assert ToDigits(64, 3, x / 64) == [x / 262144 % 64, x / 4096 % 64, x / 64 % 64];
  }

  /** The digits a short group leaves out are zero. */
  lemma LowDigitsZero(b: seq<byte>)
    requires 1 <= |b| <= 3
    ensures var x := FromDigits(256, ZeroPadded(b, 3));
            (|b| < 3 ==> x % 64 == 0) && (|b| < 2 ==> x / 64 % 64 == 0)
  {
    if |b| == 1 {
      var b0: nat := b[0];
      assert b == [b0];
      Three(b0, 0, 0);
      DivModUnique(b0 * 65536, 64, b0 * 1024, 0);
      DivModUnique(b0 * 1024, 64, b0 * 16, 0);
    } else if |b| == 2 {
      var b0: nat, b1: nat := b[0], b[1];
      assert b == [b0, b1];
      Three(b0, b1, 0);
      DivModUnique((b0 * 256 + b1) * 256, 64, b0 * 1024 + b1 * 4, 0);
    }
  }

  lemma PadDigits(q: seq<nat>, n: nat)
    requires |q| == 4 && 2 <= n <= 4
    requires n < 4 ==> q[3] == 0
    requires n < 3 ==> q[2] == 0
    ensures ZeroPadded(q[..n], 4) == q
  {
    Four(q[0], q[1], q[2], q[3]);
    assert q == [q[0], q[1], q[2], q[3]] && q[..3] == [q[0], q[1], q[2]] && q[..2] == [q[0], q[1]] && q[..4] == q;
  }

  lemma TopDigits(x: nat, n: nat)
    requires 2 <= n <= 4 && (n < 4 ==> x % 64 == 0) && (n < 3 ==> x / 64 % 64 == 0)
    ensures ZeroPadded(ToDigits(64, 4, x)[..n], 4) == ToDigits(64, 4, x)
  {
    FourDigits(x);
    PadDigits(ToDigits(64, 4, x), n);
  }

  lemma ShortGroup(b: seq<byte>)
    requires 1 <= |b| <= 3
    ensures ZeroPadded(GroupDigits(b), 4) == ToDigits(64, 4, FromDigits(256, ZeroPadded(b, 3)))
  {
    LowDigitsZero(b);
    TopDigits(FromDigits(256, ZeroPadded(b, 3)), |b| + 1);
  }

  lemma GroupBack(b: seq<byte>)
    requires 1 <= |b| <= 3
    ensures GroupBytes(GroupDigits(b)) == b
  {
    var full := ZeroPadded(b, 3);
    assert |full| == 3 && full[..|b|] == b && Below(full, 256) by {
      if |b| == 1 { Three(b[0], 0, 0); assert b == [b[0]]; }
      else if |b| == 2 { Three(b[0], b[1], 0); assert b == [b[0], b[1]]; }
    }
    var x := FromDigits(256, full);
    FromBound(256, full);
    assert Power(256, 3) == 16777216 == Power(64, 4) by {
      assert Power(256, 1) == 256 && Power(64, 1) == 64 && Power(256, 2) == 65536 && Power(64, 2) == 4096;
      assert Power(64, 3) == 262144;
    }
    ShortGroup(b);
    ToFrom(64, 4, x);
    FromTo(256, 3, full);
  }

  lemma {:induction false} DigitsOfLetters(q: seq<digit>)
    ensures Digits(Letters(q)) == q
  {
    if q != [] {
      LetterValue(q[0]);
      DigitsOfLetters(q[1..]);
      assert Letters(q)[1..] == Letters(q[1..]);
    }
  }

  lemma GroupText(b: seq<byte>)
    requires 1 <= |b| <= 3
    ensures Digits(EncodeGroup(b)) == GroupDigits(b)
  {
    DigitsConcat(Letters(GroupDigits(b)), Padding(3 - |b|));
    DigitsOfLetters(GroupDigits(b));
    NoDigits(Padding(3 - |b|));
  }

  /** Decoding an encoding gives the bytes back, whatever they are. */
  lemma {:induction false} RoundTrip(b: seq<byte>)
    ensures Decode(Encode(b)) == b
  {
    if |b| >= 3 {
      RoundTrip(b[3..]);
      DigitsConcat(EncodeGroup(b[..3]), Encode(b[3..]));
      GroupText(b[..3]);
      GroupBack(b[..3]);
      var q := GroupDigits(b[..3]);
      assert (q + Digits(Encode(b[3..])))[..4] == q && (q + Digits(Encode(b[3..])))[4..] == Digits(Encode(b[3..]));
      assert b == b[..3] + b[3..];
    } else if |b| >= 1 {
      GroupText(b);
      GroupBack(b);
    }
  }

  /** Bytes outside the alphabet may be put anywhere in the text. */
  lemma JunkIgnored(a: seq<byte>, junk: seq<byte>, b: seq<byte>)
    requires forall c, v: digit :: c in junk ==> c != Letter(v)
    ensures Decode(a + junk + b) == Decode(a + b)
  {
    forall c | c in junk ensures Value(c) < 0 { OutsideIs(c); }
    NoDigits(junk);
    DigitsConcat(a + junk, b);
    DigitsConcat(a, junk);
    DigitsConcat(a, b);
    assert Digits(a) + [] == Digits(a);
  }

  lemma {:induction false} NoDigits(junk: seq<byte>)
    requires forall c :: c in junk ==> Value(c) < 0
    ensures Digits(junk) == []
  {
    if junk != [] { NoDigits(junk[1..]); }
  }

  /** Reading and writing a table unchanged writes the text it was read from, up to junk,
      exactly for canonical text. */
  lemma CanonicalText(s: seq<byte>)
    ensures (exists b: seq<byte> :: s == Encode(b)) <==> Encode(Decode(s)) == s
  {
    if exists b: seq<byte> :: s == Encode(b) {
      var b: seq<byte> :| s == Encode(b);
      RoundTrip(b);
    }
  }

  // ---- the same, letter by letter -------------------------------------------------------------

  const UPPER := "ABCDEFGHIJKLMNOPQRSTUVWXYZ"
  const LOWER := "abcdefghijklmnopqrstuvwxyz"
  const DECIMAL := "0123456789"
  const ALPHABET := UPPER + LOWER + DECIMAL + "+/"

  lemma UpperIs(v: nat)
    requires v < 26
    ensures |UPPER| == 26 && UPPER[v] as int == 65 + v
  {
    assert v in {0, 1, 2, 3, 4, 5, 6, 7, 8, 9, 10, 11, 12, 13, 14, 15, 16, 17, 18, 19, 20, 21, 22, 23, 24, 25};
  }

  lemma LowerIs(v: nat)
    requires v < 26
    ensures |LOWER| == 26 && LOWER[v] as int == 97 + v
  {
    assert v in {0, 1, 2, 3, 4, 5, 6, 7, 8, 9, 10, 11, 12, 13, 14, 15, 16, 17, 18, 19, 20, 21, 22, 23, 24, 25};
  }

  lemma DecimalIs(v: nat)
    requires v < 10
    ensures |DECIMAL| == 10 && DECIMAL[v] as int == 48 + v
  {
    assert v in {0, 1, 2, 3, 4, 5, 6, 7, 8, 9};
  }

  /** The letters are the RFC's table. */
  lemma AlphabetIs(v: digit)
    ensures |ALPHABET| == 64 && ALPHABET[v] as int == Letter(v)
  {
    if v < 26 {
      UpperIs(v);
      assert ALPHABET[v] == UPPER[v];
    } else if v < 52 {
      LowerIs(v - 26);
      assert ALPHABET[v] == LOWER[v - 26];
    } else if v < 62 {
      DecimalIs(v - 52);
      assert ALPHABET[v] == DECIMAL[v - 52];
    } else {
      assert ALPHABET[v] == "+/"[v - 62];
    }
  }

  lemma WordDigits(x: byte, y: byte, z: byte)
    ensures var w := x * 65536 + y * 256 + z;
      && w / 262144 % 64 == x / 4 && w / 4096 % 64 == x % 4 * 16 + y / 16
      && w / 64 % 64 == y % 16 * 4 + z / 64 && w % 64 == z % 64
  {
    var w := x * 65536 + y * 256 + z;
    DivModUnique(w, 64, x * 1024 + y * 4 + z / 64, z % 64);
    DivModUnique(w, 4096, x * 16 + y / 16, y % 16 * 256 + z);
    DivModUnique(w, 262144, x / 4, x % 4 * 65536 + y * 256 + z);
    DivModUnique(x * 1024 + y * 4 + z / 64, 64, x * 16 + y / 16, y % 16 * 4 + z / 64);
    DivModUnique(x * 16 + y / 16, 64, x / 4, x % 4 * 16 + y / 16);
    DivModUnique(x / 4, 64, 0, x / 4);
  }

  lemma GroupIs(b: seq<byte>, x: byte, y: byte, z: byte)
    requires 1 <= |b| <= 3 && b == [x, y, z][..|b|] && (|b| < 3 ==> z == 0) && (|b| < 2 ==> y == 0)
    ensures GroupDigits(b) == [x / 4, x % 4 * 16 + y / 16, y % 16 * 4 + z / 64, z % 64][..|b| + 1]
  {
    PaddedBytes(b, y, z);
    FourDigits(x * 65536 + y * 256 + z);
    WordDigits(x, y, z);
  }

  lemma OneEncodesAs(x: byte)
    ensures EncodeGroup([x]) == [Letter(x / 4), Letter(x % 4 * 16), 61, 61]
  {
    GroupIs([x], x, 0, 0);
  }

  lemma TwoEncodeAs(x: byte, y: byte)
    ensures EncodeGroup([x, y]) == [Letter(x / 4), Letter(x % 4 * 16 + y / 16), Letter(y % 16 * 4), 61]
  {
    GroupIs([x, y], x, y, 0);
  }

  lemma ThreeEncodeAs(x: byte, y: byte, z: byte)
    ensures EncodeGroup([x, y, z]) ==
      [Letter(x / 4), Letter(x % 4 * 16 + y / 16), Letter(y % 16 * 4 + z / 64), Letter(z % 64)]
  {
    GroupIs([x, y, z], x, y, z);
  }

  lemma EncodeFrom(b: seq<byte>, rest: seq<byte>)
    requires |b| == 3
    ensures Encode(b + rest) == EncodeGroup(b) + Encode(rest)
  {
    assert (b + rest)[..3] == b && (b + rest)[3..] == rest;
  }

  /** What the encoder writes: four letters of the table for three bytes; two, or three, and padding at the end. */
  lemma EncodesAs(x: byte, y: byte, z: byte, rest: seq<byte>)
    ensures Encode([]) == []
    ensures Encode([x]) == [Letter(x / 4), Letter(x % 4 * 16), 61, 61]
    ensures Encode([x, y]) == [Letter(x / 4), Letter(x % 4 * 16 + y / 16), Letter(y % 16 * 4), 61]
    ensures Encode([x, y, z] + rest)
      == [Letter(x / 4), Letter(x % 4 * 16 + y / 16), Letter(y % 16 * 4 + z / 64), Letter(z % 64)] + Encode(rest)
  {
    OneEncodesAs(x);
    TwoEncodeAs(x, y);
    ThreeEncodeAs(x, y, z);
    EncodeFrom([x, y, z], rest);
  }

  lemma ShiftsAre(v0: digit, v1: digit, v2: digit, v3: digit)
    ensures ToDigits(256, 3, FromDigits(64, [v0, v1, v2, v3]))
      == [v0 * 4 + v1 / 16, v1 % 16 * 16 + v2 / 4, v2 % 4 * 64 + v3]
  {
    ShiftsAreDigits(v0, v1, v2, v3);
    DivModUnique(v1 * 16, 256, v1 / 16, v1 % 16 * 16);
    DivModUnique(v2 * 64, 256, v2 / 4, v2 % 4 * 64);
  }

  lemma FourBytes(v0: digit, v1: digit, v2: digit, v3: digit)
    ensures GroupBytes([v0, v1, v2, v3]) == [v0 * 4 + v1 / 16, v1 % 16 * 16 + v2 / 4, v2 % 4 * 64 + v3]
  {
    Four(v0, v1, v2, v3);
    ShiftsAre(v0, v1, v2, v3);
  }

  lemma ThreeBytes(v0: digit, v1: digit, v2: digit)
    ensures GroupBytes([v0, v1, v2]) == [v0 * 4 + v1 / 16, v1 % 16 * 16 + v2 / 4]
  {
    Four(v0, v1, v2, 0);
    ShiftsAre(v0, v1, v2, 0);
  }

  lemma TwoBytes(v0: digit, v1: digit)
    ensures GroupBytes([v0, v1]) == [v0 * 4 + v1 / 16]
  {
    Four(v0, v1, 0, 0);
    ShiftsAre(v0, v1, 0, 0);
  }

  lemma DigitsOfFour(v0: digit, v1: digit, v2: digit, v3: digit)
    ensures Digits([Letter(v0)]) == [v0] && Digits([Letter(v0), Letter(v1)]) == [v0, v1]
    ensures Digits([Letter(v0), Letter(v1), Letter(v2)]) == [v0, v1, v2]
    ensures Digits([Letter(v0), Letter(v1), Letter(v2), Letter(v3)]) == [v0, v1, v2, v3]
  {
    var q := [v0, v1, v2, v3];
    DigitsOfLetters(q);
    DigitsOfLetters(q[..3]);
    DigitsOfLetters(q[..2]);
    DigitsOfLetters(q[..1]);
    assert Letters(q) == [Letter(v0), Letter(v1), Letter(v2), Letter(v3)];
    assert Letters(q[..3]) == [Letter(v0), Letter(v1), Letter(v2)];
    assert Letters(q[..2]) == [Letter(v0), Letter(v1)] && Letters(q[..1]) == [Letter(v0)];
  }

  /** What the decoder makes of letters of the table: three bytes of four; two of three and one of two at the end, and
      none of one. */
  lemma DecodesAs(v0: digit, v1: digit, v2: digit, v3: digit, rest: seq<byte>)
    ensures Decode([]) == Decode([Letter(v0)]) == []
    ensures Decode([Letter(v0), Letter(v1)]) == [v0 * 4 + v1 / 16]
    ensures Decode([Letter(v0), Letter(v1), Letter(v2)]) == [v0 * 4 + v1 / 16, v1 % 16 * 16 + v2 / 4]
    ensures Decode([Letter(v0), Letter(v1), Letter(v2), Letter(v3)] + rest)
      == [v0 * 4 + v1 / 16, v1 % 16 * 16 + v2 / 4, v2 % 4 * 64 + v3] + Decode(rest)
  {
    DigitsOfFour(v0, v1, v2, v3);
    FourBytes(v0, v1, v2, v3);
    ThreeBytes(v0, v1, v2);
    TwoBytes(v0, v1);
    DigitsConcat([Letter(v0), Letter(v1), Letter(v2), Letter(v3)], rest);
    var q := [v0, v1, v2, v3] + Digits(rest);
    assert q[..4] == [v0, v1, v2, v3] && q[4..] == Digits(rest);
  }

  /** A byte is outside the table exactly if it is no letter of it. */
  lemma OutsideIs(c: byte)
    ensures Value(c) < 0 <==> forall v: digit :: c != Letter(v)
  {
    if Value(c) >= 0 {
      assert Letter(Value(c)) == c;
    } else {
      forall v: digit ensures c != Letter(v) {
        LetterValue(v);
      }
    }
  }

  // ---- the loops ---------------------------------------------------------------------------

  lemma {:induction false} BytesConcat(a: seq<digit>, b: seq<digit>)
    requires |a| % 4 == 0
    ensures Bytes(a + b) == Bytes(a) + Bytes(b)
  {
    if a == [] {
      assert a + b == b;
    } else {
      assert (a + b)[..4] == a[..4] && (a + b)[4..] == a[4..] + b;
      BytesConcat(a[4..], b);
    }
  }

  /** out[o++] = ... for each byte of one group. */
  method Put(out: array<byte>, at: nat, bytes: seq<byte>)
    requires at + |bytes| <= out.Length
    modifies out
    ensures out[..at + |bytes|] == old(out[..at]) + bytes
  {
    for k := 0 to |bytes|
      invariant out[..at + k] == old(out[..at]) + bytes[..k]
    {
      out[at + k] := bytes[k];
      assert out[..at + k + 1] == out[..at + k] + [bytes[k]];
    }
    assert bytes[..|bytes|] == bytes;
  }

  /** The source's shifts, each result truncated to unsigned char. */
  method DecodeShifts(q: seq<digit>) returns (b: seq<byte>)
    requires 2 <= |q| <= 4
    ensures b == GroupBytes(q)
  {
    var q2, q3 := if |q| > 2 then q[2] else 0, if |q| > 3 then q[3] else 0;
    Four(q[0], q[1], q2, q3);
    ShiftsAreDigits(q[0], q[1], q2, q3);
    assert ZeroPadded(q, 4) == [q[0], q[1], q2, q3] by {
      assert q == if |q| == 4 then [q[0], q[1], q2, q3] else if |q| == 3 then [q[0], q[1], q2] else [q[0], q[1]];
    }
    var b0: nat, b1: nat, b2: nat := Shift0(q[0], q[1]), Shift1(q[1], q2), Shift2(q2, q3);
    b := [b0];
    if |q| > 2 { b := b + [b1]; }
    if |q| > 3 { b := b + [b2]; }
  }

  function Shift0(q0: nat, q1: nat): nat { q0 * 4 + q1 / 16 }
  function Shift1(q1: nat, q2: nat): nat { q1 * 16 % 256 + q2 / 4 }
  function Shift2(q2: nat, q3: nat): nat { q2 * 64 % 256 + q3 }

  lemma ShiftValues(q0: digit, q1: digit, q2: digit, q3: digit)
    ensures Shift0(q0, q1) < 256 && Shift1(q1, q2) < 256 && Shift2(q2, q3) < 256
    ensures ((q0 * 64 + q1) * 64 + q2) * 64 + q3 == (Shift0(q0, q1) * 256 + Shift1(q1, q2)) * 256 + Shift2(q2, q3)
  {
    DivModUnique(q1 * 16, 256, q1 / 16, q1 % 16 * 16);
    DivModUnique(q2 * 64, 256, q2 / 4, q2 % 4 * 64);
  }

  lemma ShiftsAreDigits(q0: digit, q1: digit, q2: digit, q3: digit)
    ensures ToDigits(256, 3, FromDigits(64, [q0, q1, q2, q3])) == [Shift0(q0, q1), Shift1(q1, q2), Shift2(q2, q3)]
    ensures Shift0(q0, q1) < 256 && Shift1(q1, q2) < 256 && Shift2(q2, q3) < 256
  {
    ShiftValues(q0, q1, q2, q3);
    var ds: seq<nat> := [Shift0(q0, q1), Shift1(q1, q2), Shift2(q2, q3)];
    Three(ds[0], ds[1], ds[2]);
    Four(q0, q1, q2, q3);
    assert FromDigits(256, ds) == FromDigits(64, [q0, q1, q2, q3]);
    FromTo(256, 3, ds);
  }

  lemma PaddedBytes(b: seq<byte>, b1: nat, b2: nat)
    requires 1 <= |b| <= 3
    requires b1 == (if |b| > 1 then b[1] else 0) && b2 == (if |b| > 2 then b[2] else 0)
    ensures FromDigits(256, ZeroPadded(b, 3)) == b[0] * 65536 + b1 * 256 + b2
  {
    var b0: nat := b[0];
    Three(b0, b1, b2);
    assert b == if |b| == 3 then [b0, b1, b2] else if |b| == 2 then [b0, b1] else [b0];
  }

  method EncodeShifts(b: seq<byte>) returns (text: seq<byte>)
    requires 1 <= |b| <= 3
    ensures text == EncodeGroup(b) && |text| == 4
  {
    var b0: nat, b1: nat, b2: nat := b[0], if |b| > 1 then b[1] else 0, if |b| > 2 then b[2] else 0;
    PaddedBytes(b, b1, b2);
    var x := b0 * 65536 + b1 * 256 + b2;
    FourDigits(x);
    var q: seq<digit> := [x / 262144 % 64, x / 4096 % 64, x / 64 % 64, x % 64];
    text := Letters(q[..|b| + 1]) + Padding(3 - |b|);
  }

  lemma DigitsStep(input: seq<byte>, i: nat, done: seq<digit>, q: seq<digit>)
    requires i < |input| && Digits(input[..i]) == done + q
    ensures Digits(input[..i + 1]) == done + (if Value(input[i]) < 0 then q else q + [Value(input[i])])
  {
    var c := input[i];
    assert input[..i + 1] == input[..i] + [c];
    DigitsConcat(input[..i], [c]);
    assert [c][1..] == [];
  }

  lemma DecodeEnd(input: seq<byte>, done: seq<digit>, q: seq<digit>)
    requires Digits(input[..|input|]) == done + q && |done| % 4 == 0 && |q| < 4
    ensures Decode(input) == Bytes(done) + (if |q| >= 2 then GroupBytes(q) else [])
  {
    assert input[..|input|] == input;
    BytesConcat(done, q);
  }

  lemma WholeGroups(groups: nat)
    ensures 4 * groups % 4 == 0 && 3 * groups % 3 == 0
  {
    DivModUnique(4 * groups, 4, groups, 0);
    DivModUnique(3 * groups, 3, groups, 0);
  }

  method PutGroup(out: array<byte>, outlen: nat, q: seq<digit>) returns (len: nat)
    requires 2 <= |q| <= 4 && outlen + |q| - 1 <= out.Length
    modifies out
    ensures len == outlen + |q| - 1
    ensures out[..len] == old(out[..outlen]) + GroupBytes(q)
  {
    var b := DecodeShifts(q);
    Put(out, outlen, b);
    len := outlen + |b|;
  }

  lemma GroupsFit(groups: nat, cap: nat, len: nat)
    requires 4 * groups <= len < 4 * cap + 4
    ensures groups <= cap && 3 * groups <= 3 * cap
  {}

  predicate WholeStep(done: seq<digit>, q: seq<digit>) {
    |done| % 4 == 0 && |q| == 4
  }

  /** All the loop needs to know of the bytes that whole groups stand for. */
  ghost predicate GroupByGroup(f: seq<digit> -> seq<byte>) {
    && f([]) == []
    && forall done, q {:trigger WholeStep(done, q)} :: WholeStep(done, q) ==> f(done + q) == f(done) + GroupBytes(q)
  }

  lemma BytesByGroup()
    ensures GroupByGroup(Bytes)
  {
    forall done, q | WholeStep(done, q) ensures Bytes(done + q) == Bytes(done) + GroupBytes(q) {
      BytesConcat(done, q);
      assert q[..4] == q && q[4..] == [];
    }
  }

  /** One alphabet byte: a full group goes to `out`, fewer than four digits stay pending. */
  method PushDigit(out: array<byte>, outlen: nat, q: seq<digit>, d: digit, ghost done: seq<digit>, ghost groups: nat,
                   ghost f: seq<digit> -> seq<byte>)
    returns (len: nat, q': seq<digit>, ghost done': seq<digit>, ghost groups': nat)
    requires |q| < 4 && |done| == 4 * groups && outlen == 3 * groups && outlen + 3 <= out.Length
    requires GroupByGroup(f) && out[..outlen] == f(done)
    modifies out
    ensures |q'| < 4 && |done'| == 4 * groups' && len == 3 * groups'
    ensures done' + q' == done + (q + [d])
    ensures out[..len] == f(done')
  {
    q', len, done', groups' := q + [d], outlen, done, groups;
    if |q'| == 4 {
      WholeGroups(groups);
      assert WholeStep(done, q');
      len := PutGroup(out, outlen, q');
      done', groups' := done + q', groups + 1;
      assert done' + [] == done';
      q' := [];
    }
  }

  /** The loop body for the byte at `i`. */
  method DecodeByte(input: seq<byte>, i: nat, out: array<byte>, outlen: nat, q: seq<digit>, ghost done: seq<digit>,
                    ghost groups: nat, ghost f: seq<digit> -> seq<byte>)
    returns (len: nat, q': seq<digit>, ghost done': seq<digit>, ghost groups': nat)
    requires i < |input| && outlen + 3 <= out.Length
    requires |q| < 4 && |done| == 4 * groups && outlen == 3 * groups
    requires GroupByGroup(f) && Digits(input[..i]) == done + q && out[..outlen] == f(done)
    modifies out
    ensures |q'| < 4 && |done'| == 4 * groups' && len == 3 * groups'
    ensures |done'| + |q'| <= |done| + |q| + 1
    ensures Digits(input[..i + 1]) == done' + q' && out[..len] == f(done')
  {
    DigitsStep(input, i, done, q);
    len, q', done', groups' := outlen, q, done, groups;
    var v := Value(input[i]);
    if v >= 0 {
      len, q', done', groups' := PushDigit(out, outlen, q, v, done, groups, f);
      assert |done' + q'| == |done + (q + [v])|;
    }
  }

  method DecodeGroups(input: seq<byte>, out: array<byte>, ghost cap: nat, ghost f: seq<digit> -> seq<byte>)
    returns (outlen: nat, q: seq<digit>, ghost done: seq<digit>, ghost groups: nat)
    requires 4 * cap <= |input| < 4 * cap + 4 && out.Length == 3 * cap + 4 && GroupByGroup(f)
    modifies out
    ensures |q| < 4 && |done| == 4 * groups && outlen == 3 * groups <= 3 * cap
    ensures Digits(input[..|input|]) == done + q
    ensures out[..outlen] == f(done)
  {
    outlen, q, done, groups := 0, [], [], 0;
    for i := 0 to |input|
      invariant |q| < 4 && |done| == 4 * groups && outlen == 3 * groups
      invariant |done| + |q| <= i
      invariant Digits(input[..i]) == done + q
      invariant out[..outlen] == f(done)
    {
      GroupsFit(groups, cap, |input|);
      outlen, q, done, groups := DecodeByte(input, i, out, outlen, q, done, groups, f);
    }
    GroupsFit(groups, cap, |input|);
  }

  method B64Decode(input: seq<byte>) returns (out: array<byte>, outlen: nat)
    ensures fresh(out) && out.Length == |input| / 4 * 3 + 4
    ensures outlen < out.Length && out[..outlen] == Decode(input)
  {
    out := new byte[|input| / 4 * 3 + 4];
    var q: seq<digit>;
    ghost var done, groups;
    BytesByGroup();
    outlen, q, done, groups := DecodeGroups(input, out, |input| / 4, Bytes);
    WholeGroups(groups);
    DecodeEnd(input, done, q);
    if |q| >= 2 {
      outlen := PutGroup(out, outlen, q);
    }
  }

  /** A sequence taken three bytes at a time, for any treatment of a group. */
  function Chunked(f: seq<byte> -> seq<byte>, b: seq<byte>): seq<byte> {
    if |b| >= 3 then f(b[..3]) + Chunked(f, b[3..]) else if |b| >= 1 then f(b) else []
  }

  lemma {:induction false} ChunkedConcat(f: seq<byte> -> seq<byte>, a: seq<byte>, b: seq<byte>)
    requires |a| % 3 == 0
    ensures Chunked(f, a + b) == Chunked(f, a) + Chunked(f, b)
  {
    if a == [] {
      assert a + b == b;
    } else {
      assert (a + b)[..3] == a[..3] && (a + b)[3..] == a[3..] + b;
      ChunkedConcat(f, a[3..], b);
    }
  }

  /** Whole groups and then one more, or a shorter last one. */
  lemma ChunkedStep(f: seq<byte> -> seq<byte>, input: seq<byte>, i: nat, j: nat)
    requires i % 3 == 0 && i < j <= |input| && j <= i + 3
    ensures Chunked(f, input[..j]) == Chunked(f, input[..i]) + f(input[i..j])
  {
    var group := input[i..j];
    assert input[..j] == input[..i] + group;
    ChunkedConcat(f, input[..i], group);
    assert |group| == 3 ==> group[..3] == group && group[3..] == [];
  }

  const GROUP: seq<byte> -> seq<byte> := (b: seq<byte>) => if 1 <= |b| <= 3 then EncodeGroup(b) else []

  lemma {:induction false} EncodeIsChunked(b: seq<byte>)
    ensures Encode(b) == Chunked(GROUP, b)
  {
    if |b| >= 3 { EncodeIsChunked(b[3..]); }
  }

  predicate Cut(input: seq<byte>, i: nat, j: nat) {
    i % 3 == 0 && i < j <= |input| && j <= i + 3
  }

  /** All the encoding loop needs to know of the text of a prefix. */
  ghost predicate ThreeByThree(f: seq<byte> -> seq<byte>) {
    && f([]) == []
    && forall input, i, j {:trigger Cut(input, i, j)} ::
         Cut(input, i, j) ==> f(input[..j]) == f(input[..i]) + EncodeGroup(input[i..j])
  }

  lemma EncodeByThree()
    ensures ThreeByThree(Encode)
  {
    forall input, i, j | Cut(input, i, j) ensures Encode(input[..j]) == Encode(input[..i]) + EncodeGroup(input[i..j]) {
      EncodeIsChunked(input[..i]);
      EncodeIsChunked(input[..j]);
      ChunkedStep(GROUP, input, i, j);
    }
  }

  method PutText(out: array<byte>, outlen: nat, b: seq<byte>)
    requires 1 <= |b| <= 3 && outlen + 4 <= out.Length
    modifies out
    ensures out[..outlen + 4] == old(out[..outlen]) + EncodeGroup(b)
  {
    var text := EncodeShifts(b);
    Put(out, outlen, text);
  }

  method EncodeGroups(input: seq<byte>, out: array<byte>, ghost cap: nat, ghost f: seq<byte> -> seq<byte>)
    returns (i: nat, outlen: nat, ghost groups: nat)
    requires |input| <= 3 * cap < |input| + 3 && out.Length == 4 * cap + 4 && ThreeByThree(f)
    modifies out
    ensures i == 3 * groups <= |input| < i + 3 && outlen == 4 * groups <= 4 * cap
    ensures out[..outlen] == f(input[..i])
  {
    i, outlen, groups := 0, 0, 0;
    while i + 3 <= |input|
      invariant i == 3 * groups <= |input| && outlen == 4 * groups
      invariant out[..outlen] == f(input[..i])
    {
      WholeGroups(groups);
      assert Cut(input, i, i + 3);
      PutText(out, outlen, input[i..i + 3]);
      i, outlen, groups := i + 3, outlen + 4, groups + 1;
    }
  }

  lemma TextGroups(groups: nat, len: nat, cap: nat)
    requires 3 * groups <= len < 3 * groups + 3 && len <= 3 * cap < len + 3
    ensures cap == if len == 3 * groups then groups else groups + 1
  {}

  method EncodeInto(input: seq<byte>, out: array<byte>, ghost cap: nat, ghost f: seq<byte> -> seq<byte>)
    returns (outlen: nat)
    requires |input| <= 3 * cap < |input| + 3 && out.Length == 4 * cap + 4 && ThreeByThree(f)
    modifies out
    ensures outlen == 4 * cap && out[..outlen] == f(input)
  {
    var i;
    ghost var groups;
    i, outlen, groups := EncodeGroups(input, out, cap, f);
    TextGroups(groups, |input|, cap);
    assert input[..|input|] == input;
    if i < |input| {
      WholeGroups(groups);
      assert Cut(input, i, |input|);
      PutText(out, outlen, input[i..]);
      outlen := outlen + 4;
    }
  }

  /** The encoder never writes past the size it allocates, and what it writes is the encoding. */
  method B64Encode(input: seq<byte>) returns (out: array<byte>, outlen: nat)
    ensures fresh(out) && out.Length == (|input| + 2) / 3 * 4 + 4
    ensures outlen == (|input| + 2) / 3 * 4 && out[..outlen] == Encode(input)
  {
    var cap := (|input| + 2) / 3;
    out := new byte[cap * 4 + 4];
    EncodeByThree();
    outlen := EncodeInto(input, out, cap, Encode);
  }
}
