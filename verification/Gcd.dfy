/** The shift-and-subtract greatest common divisor, against Euclid's. */
module Gcd {
  import opened Bits

  // ----------------------------------------------------------------- Euclid

  function Euclid(u: nat, v: nat): nat
    decreases v
  {
    if v == 0 then u else Euclid(v, u % v)
  }

  predicate Multiple(n: nat, d: nat, k: nat) {
    n == k * d
  }

  ghost predicate Divides(d: nat, n: nat) {
    exists k: nat :: Multiple(n, d, k)
  }

  lemma DividesCombination(d: nat, x: nat, y: nat, q: nat)
    requires Divides(d, x)
    ensures Divides(d, y) ==> Divides(d, q * x + y)
    ensures Divides(d, q * x + y) ==> Divides(d, y)
  {
    var k: nat :| Multiple(x, d, k);
    assert q * x == q * k * d;
    if Divides(d, y) {
      var m: nat :| Multiple(y, d, m);
      assert q * x + y == (q * k + m) * d;
      assert Multiple(q * x + y, d, q * k + m);
    }
    if Divides(d, q * x + y) {
      var m: nat :| Multiple(q * x + y, d, m);
      assert y == (m - q * k) * d;
      if m < q * k {
        assert (m - q * k) * d <= 0;
        assert y == 0;
        assert Multiple(y, d, 0);
      } else {
        assert Multiple(y, d, m - q * k);
      }
    }
  }

  lemma DividesZero(d: nat)
    ensures Divides(d, 0) && Divides(d, d)
  {
    assert Multiple(0, d, 0) && Multiple(d, d, 1);
  }

  /** Euclid's algorithm gives the greatest common divisor in the order of divisibility. */
  lemma {:induction false} EuclidIsGreatest(u: nat, v: nat, d: nat)
    ensures Divides(Euclid(u, v), u) && Divides(Euclid(u, v), v)
    ensures Divides(d, u) && Divides(d, v) ==> Divides(d, Euclid(u, v))
    decreases v
  {
    var g := Euclid(u, v);
    DividesZero(g);
    if v > 0 {
      var q := u / v;
      assert u == q * v + u % v;
      EuclidIsGreatest(v, u % v, d);
      DividesCombination(g, v, u % v, q);
      if Divides(d, v) {
        DividesCombination(d, v, u % v, q);
      }
    }
  }

  lemma MultipleAtLeast(n: nat, d: nat, k: nat)
    requires Multiple(n, d, k) && n > 0
    ensures n >= d
  {
    assert k > 0;
    assert n == (k - 1) * d + d;
  }

  lemma DividesAntisymmetric(x: nat, y: nat)
    requires Divides(x, y) && Divides(y, x)
    ensures x == y
  {
    var k: nat :| Multiple(y, x, k);
    var m: nat :| Multiple(x, y, m);
    if x > 0 && y > 0 {
      MultipleAtLeast(y, x, k);
      MultipleAtLeast(x, y, m);
    }
  }

  /** Pairs with the same common divisors have the same greatest one. */
  lemma SameDivisors(u: nat, v: nat, x: nat, y: nat)
    requires forall d: nat :: Divides(d, u) && Divides(d, v) <==> Divides(d, x) && Divides(d, y)
    ensures Euclid(u, v) == Euclid(x, y)
  {
    var g, h := Euclid(u, v), Euclid(x, y);
    EuclidIsGreatest(u, v, h);
    EuclidIsGreatest(x, y, g);
    DividesAntisymmetric(g, h);
  }

  lemma EuclidSymmetric(u: nat, v: nat)
    ensures Euclid(u, v) == Euclid(v, u)
  {
    SameDivisors(u, v, v, u);
  }

  lemma EuclidSubtract(u: nat, v: nat)
    requires u <= v
    ensures Euclid(u, v - u) == Euclid(u, v)
  {
    forall d: nat ensures Divides(d, u) && Divides(d, v - u) <==> Divides(d, u) && Divides(d, v) {
      if Divides(d, u) {
        DividesCombination(d, u, v - u, 1);
      }
    }
    SameDivisors(u, v - u, u, v);
  }

  /** Halving the even number of a pair whose other number is odd keeps the divisor. */
  lemma EuclidHalve(u: nat, w: nat)
    requires u % 2 == 1
    ensures Euclid(u, 2 * w) == Euclid(u, w)
  {
    forall d: nat ensures Divides(d, u) && Divides(d, 2 * w) <==> Divides(d, u) && Divides(d, w) {
      if Divides(d, u) && Divides(d, 2 * w) {
        var k: nat :| Multiple(u, d, k);
        var m: nat :| Multiple(2 * w, d, m);
        OddDivisor(d, k, m, w);
        assert Multiple(w, d, m / 2);
      }
      if Divides(d, w) {
        var m: nat :| Multiple(w, d, m);
        assert 2 * w == (2 * m) * d;
        assert Multiple(2 * w, d, 2 * m);
      }
    }
    SameDivisors(u, 2 * w, u, w);
  }

  lemma OddFactor(k: nat, d: nat)
    requires (k * d) % 2 == 1
    ensures d % 2 == 1
  {
    var e := d / 2;
    assert d % 2 == 0 ==> k * d == 2 * (k * e);
  }

  lemma OddDivisor(d: nat, k: nat, m: nat, w: nat)
    requires (k * d) % 2 == 1 && 2 * w == m * d
    ensures w == (m / 2) * d
  {
    OddFactor(k, d);
    var e := d / 2;
    assert d == 2 * e + 1;
    EvenCofactor(m, e, w);
    HalveProduct(m / 2, d, m, w);
  }

  lemma EvenCofactor(m: nat, e: nat, w: nat)
    requires 2 * w == m * (2 * e + 1)
    ensures m % 2 == 0
  {
    var p := m * e;
    assert m * (2 * e + 1) == 2 * p + m;
  }

  lemma HalveProduct(h: nat, d: nat, m: nat, w: nat)
    requires m == 2 * h && 2 * w == m * d
    ensures w == h * d
  {
    assert m * d == 2 * (h * d);
  }

  /** A common factor comes out of both numbers. */
  lemma {:induction false} EuclidScale(c: nat, u: nat, v: nat)
    requires c > 0
    ensures Euclid(c * u, c * v) == c * Euclid(u, v)
    decreases v
  {
    if v > 0 {
      ScaledRemainder(c, u, v);
      assert c * v > 0;
      EuclidScale(c, v, u % v);
    } else {
      assert c * v == 0;
    }
  }

  lemma ScaledRemainder(c: nat, u: nat, v: nat)
    requires c > 0 && v > 0
    ensures c * v > 0 && (c * u) % (c * v) == c * (u % v)
  {
    var q, r := u / v, u % v;
    assert u == q * v + r && r < v;
    assert c * u == q * (c * v) + c * r;
    assert 0 <= c * r < c * v by {
      assert c * (v - r) > 0;
    }
    Remainder(c * u, c * v, q, c * r);
  }

  lemma Remainder(n: int, m: int, q: int, r: int)
    requires m > 0 && n == q * m + r && 0 <= r < m
    ensures n % m == r
  {
    var d := n / m - q;
    assert d * m == r - n % m;
    assert d > 0 ==> d * m >= m;
    assert d < 0 ==> d * m + m <= 0;
  }

  // -------------------------------------------------- powers of two and odd parts

  /** The number of trailing zero bits. */
  function TrailingZeros(n: nat): nat
    requires n > 0
    decreases n
  {
    if n % 2 == 1 then 0 else 1 + TrailingZeros(n / 2)
  }

  /** Shifting the trailing zeros out leaves the odd part. */
  function OddPart(n: nat): (m: nat)
    requires n > 0
    ensures m % 2 == 1 && m <= n
    ensures n == Pow2(TrailingZeros(n)) * m
    decreases n
  {
    if n % 2 == 1 then n
    else
      var m := OddPart(n / 2);
      assert n == 2 * (Pow2(TrailingZeros(n / 2)) * m);
      m
  }

  /** `n >> ctz(n)`. */
  lemma ShiftIsOddPart(n: nat)
    requires n > 0
    ensures n / Pow2(TrailingZeros(n)) == OddPart(n)
  {
    Quotient(Pow2(TrailingZeros(n)), OddPart(n));
  }

  lemma Quotient(p: nat, m: nat)
    requires p > 0
    ensures (p * m) / p == m
  {
    var q := (p * m) / p;
    var d: int := q - m;
    assert p * d + (p * m) % p == 0;
    assert d > 0 ==> p * d >= p;
    assert d < 0 ==> p * d + p <= 0;
  }

  lemma {:induction false} EuclidStrip(u: nat, k: nat, w: nat)
    requires u % 2 == 1
    ensures Euclid(u, Pow2(k) * w) == Euclid(u, w)
    decreases k
  {
    if k > 0 {
      assert Pow2(k) * w == 2 * (Pow2(k - 1) * w);
      EuclidHalve(u, Pow2(k - 1) * w);
      EuclidStrip(u, k - 1, w);
    }
  }

  lemma EuclidOddPart(u: nat, v: nat)
    requires u % 2 == 1 && v > 0
    ensures Euclid(u, OddPart(v)) == Euclid(u, v)
  {
    EuclidStrip(u, TrailingZeros(v), OddPart(v));
  }

  lemma OrPositive(u: nat, v: nat)
    requires u > 0 && v > 0
    ensures Or(u, v) > 0
  {
  }

  lemma {:induction false} OrTrailingZeros(u: nat, v: nat)
    requires u > 0 && v > 0
    ensures Or(u, v) > 0
    ensures TrailingZeros(Or(u, v)) ==
            if TrailingZeros(u) < TrailingZeros(v) then TrailingZeros(u) else TrailingZeros(v)
    decreases u
  {
    OrPositive(u, v);
    Halve(Or(u / 2, v / 2), if u % 2 == 1 || v % 2 == 1 then 1 else 0);
    if u % 2 == 0 && v % 2 == 0 {
      OrTrailingZeros(u / 2, v / 2);
    }
  }

  lemma {:induction false} PowSplit(j: nat, k: nat)
    ensures Pow2(j + k) == Pow2(j) * Pow2(k)
    decreases j
  {
    if j > 0 {
      PowSplit(j - 1, k);
    }
  }

  /** The common power of two comes out, and the odd parts have the rest. */
  lemma EuclidOfOddParts(u: nat, v: nat)
    requires u > 0 && v > 0
    ensures Or(u, v) > 0
    ensures Euclid(u, v) == Euclid(OddPart(u), OddPart(v)) * Pow2(TrailingZeros(Or(u, v)))
  {
    OrTrailingZeros(u, v);
    var i, j := TrailingZeros(u), TrailingZeros(v);
    if i <= j {
      OneShift(u, v, OddPart(u), OddPart(v), i, j);
    } else {
      OneShift(v, u, OddPart(v), OddPart(u), j, i);
      EuclidSymmetric(u, v);
      EuclidSymmetric(OddPart(u), OddPart(v));
    }
  }

  lemma OneShift(u: nat, v: nat, x: nat, y: nat, i: nat, j: nat)
    requires x % 2 == 1 && i <= j && u == Pow2(i) * x && v == Pow2(j) * y
    ensures Euclid(u, v) == Euclid(x, y) * Pow2(i)
  {
    PowSplit(i, j - i);
    Associate(Pow2(i), Pow2(j - i), y);
    ScaledPair(Pow2(i), x, j - i, y, Pow2(j - i) * y, u, v);
  }

  lemma ScaledPair(p: nat, x: nat, k: nat, y: nat, z: nat, u: nat, v: nat)
    requires p > 0 && x % 2 == 1 && z == Pow2(k) * y && u == p * x && v == p * z
    ensures Euclid(u, v) == Euclid(x, y) * p
  {
    Scaled(p, x, z, u, v);
    EuclidStrip(x, k, y);
  }

  lemma Scaled(p: nat, x: nat, z: nat, u: nat, v: nat)
    requires p > 0 && u == p * x && v == p * z
    ensures Euclid(u, v) == Euclid(x, z) * p
  {
    EuclidScale(p, x, z);
  }

  lemma Associate(p: nat, q: nat, y: nat)
    ensures (p * q) * y == p * (q * y)
  {
  }

  // ------------------------------------------------------------- the programs

  /** The fallback loop: Euclid on the absolute values. */
  method EuclidLoop(a: int, b: int) returns (g: nat)
    ensures g == Euclid(Abs(a), Abs(b))
  {
    var u: nat, v: nat := Abs(a), Abs(b);
    if u == 0 {
      EuclidSymmetric(u, v);
      return v;
    }
    if v == 0 {
      return u;
    }
    while v != 0
      invariant Euclid(u, v) == Euclid(Abs(a), Abs(b))
      decreases v
    {
      var t := v;
      v := u % v;
      u := t;
    }
    return u;
  }

  /** `n >> ctz(n)`. */
  function StripZeros(n: nat): (m: nat)
    requires n > 0
    ensures m == OddPart(n)
  {
    ShiftIsOddPart(n);
    n / Pow2(TrailingZeros(n))
  }

  /** One round of the loop: strip the zeros of the second number, order the two and subtract. */
  lemma RoundKeeps(u: nat, v: nat, w: nat, x: nat, y: nat)
    requires u % 2 == 1 && v > 0 && w == OddPart(v)
    requires x == (if u > w then w else u) && y == (if u > w then u else w)
    ensures x % 2 == 1 && x <= y && Euclid(x, y - x) == Euclid(u, v) && x + (y - x) < u + v
  {
    EuclidOddPart(u, v);
    EuclidSymmetric(u, w);
    EuclidSubtract(x, y);
  }

  /** The shift-and-subtract loop computes the same divisor. */
  method FastBinaryGcd(a: int, b: int) returns (g: nat)
    ensures g == Euclid(Abs(a), Abs(b))
  {
    var u: nat, v: nat := Abs(a), Abs(b);
    if u == 0 {
      EuclidSymmetric(u, v);
      return v;
    }
    if v == 0 {
      return u;
    }
    g := OddGcd(u, v);
  }

  method OddGcd(u: nat, v: nat) returns (g: nat)
    requires u > 0 && v > 0
    ensures g == Euclid(u, v)
  {
    var shift := CommonZeros(u, v);
    EuclidOddPart(OddPart(u), v);
    var odd := SubtractLoop(StripZeros(u), v, Euclid(OddPart(u), OddPart(v)));
    g := odd * Pow2(shift);
  }

  method CommonZeros(u: nat, v: nat) returns (shift: nat)
    requires u > 0 && v > 0
    ensures Euclid(u, v) == Euclid(OddPart(u), OddPart(v)) * Pow2(shift)
  {
    EuclidOfOddParts(u, v);
    shift := TrailingZeros(Or(u, v));
  }

  method SubtractLoop(u0: nat, v0: nat, ghost divisor: nat) returns (u: nat)
    requires u0 % 2 == 1 && v0 > 0 && Euclid(u0, v0) == divisor
    ensures u == divisor
  {
    var v: nat := v0;
    u := u0;
    while v != 0
      invariant u % 2 == 1 && Euclid(u, v) == divisor
      decreases u + v
    {
      ghost var x, y := u, v;
      v := StripZeros(v);
      ghost var w := v;
      if u > v {
        u, v := v, u;
      }
      RoundKeeps(x, y, w, u, v);
      v := v - u;
    }
  }
}
