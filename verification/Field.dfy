/**
 The field of rationals extended by the square root of three: a pair (a, b)
 stands for a + b * sqrt(3).  Division rationalises the denominator, so it works
 exactly when the norm a^2 - 3 b^2 is not zero; for rational a and b, not both
 zero, that norm never is.
 */
module Field {
  datatype Elem = Elem(a: real, b: real)

  const ZERO := Elem(0.0, 0.0)
  const ONE := Elem(1.0, 0.0)

  function Add(x: Elem, y: Elem): Elem {
    Elem(x.a + y.a, x.b + y.b)
  }

  function Sub(x: Elem, y: Elem): Elem {
    Elem(x.a - y.a, x.b - y.b)
  }

  function Mul(x: Elem, y: Elem): Elem {
    Elem(x.a * y.a + 3.0 * (x.b * y.b), x.a * y.b + y.a * x.b)
  }

  function Norm(x: Elem): real {
    x.a * x.a - 3.0 * (x.b * x.b)
  }

  function Div(x: Elem, y: Elem): (q: Elem)
    requires Norm(y) != 0.0
    ensures Mul(y, q) == x
  {
    var q := Elem((x.a * y.a - 3.0 * (x.b * y.b)) / Norm(y), (x.b * y.a - x.a * y.b) / Norm(y));
    QuotientTimesDivisor(x, y, q);
    q
  }

  lemma QuotientTimesDivisor(x: Elem, y: Elem, q: Elem)
    requires Norm(y) != 0.0
    requires q.a == (x.a * y.a - 3.0 * (x.b * y.b)) / Norm(y)
    requires q.b == (x.b * y.a - x.a * y.b) / Norm(y)
    ensures Mul(y, q) == x
  {
    var n := Norm(y);
    assert q.a * n == x.a * y.a - 3.0 * (x.b * y.b);
    assert q.b * n == x.b * y.a - x.a * y.b;
    var p := Mul(y, q);
    assert p.a * n == y.a * (q.a * n) + 3.0 * (y.b * (q.b * n));
    assert p.a * n == x.a * n;
    assert p.b * n == y.a * (q.b * n) + y.b * (q.a * n);
    assert p.b * n == x.b * n;
    Cancel(p.a, x.a, n);
    Cancel(p.b, x.b, n);
  }

  lemma Cancel(x: real, y: real, n: real)
    requires n != 0.0 && x * n == y * n
    ensures x == y
  {
    assert (x - y) * n == 0.0;
  }

  /** A factor whose norm is not zero can be cancelled. */
  lemma NoZeroDivisor(p: Elem, d: Elem)
    requires Norm(p) != 0.0 && Mul(p, d) == ZERO
    ensures d == ZERO
  {
    var n := Norm(p);
    assert p.a * (p.a * d.a + 3.0 * (p.b * d.b)) - 3.0 * (p.b * (p.a * d.b + d.a * p.b)) == d.a * n;
    assert p.a * (p.a * d.b + d.a * p.b) - p.b * (p.a * d.a + 3.0 * (p.b * d.b)) == d.b * n;
    Cancel(d.a, 0.0, n);
    Cancel(d.b, 0.0, n);
  }

  // ------------------------------------------------------------ rationality

  predicate IsFraction(x: real, p: int, q: int) {
    q > 0 && x * q as real == p as real
  }

  ghost predicate Rational(x: real) {
    exists p: int, q: int :: IsFraction(x, p, q)
  }

  ghost predicate InField(x: Elem) {
    Rational(x.a) && Rational(x.b)
  }

  lemma IntRational(k: int)
    ensures Rational(k as real)
  {
    assert IsFraction(k as real, k, 1);
  }

  lemma RationalSum(x: real, y: real)
    requires Rational(x) && Rational(y)
    ensures Rational(x + y) && Rational(x - y)
  {
    var p, q :| IsFraction(x, p, q);
    var r, s :| IsFraction(y, r, s);
    var qr, sr := q as real, s as real;
    assert q * s > 0;
    assert (q * s) as real == qr * sr && (p * s) as real == p as real * sr && (r * q) as real == r as real * qr;
    assert (x + y) * (qr * sr) == (x * qr) * sr + (y * sr) * qr;
    assert (x - y) * (qr * sr) == (x * qr) * sr - (y * sr) * qr;
    assert IsFraction(x + y, p * s + r * q, q * s);
    assert IsFraction(x - y, p * s - r * q, q * s);
  }

  lemma RationalProduct(x: real, y: real) returns (z: real)
    requires Rational(x) && Rational(y)
    ensures z == x * y && Rational(z)
  {
    z := x * y;
    var p, q :| IsFraction(x, p, q);
    var r, s :| IsFraction(y, r, s);
    assert q * s > 0;
    assert (q * s) as real == q as real * s as real && (p * r) as real == p as real * r as real;
    assert (x * y) * (q as real * s as real) == (x * q as real) * (y * s as real);
    assert IsFraction(x * y, p * r, q * s);
  }

  lemma Reciprocal(y: real, p: real, q: real, w: real)
    requires y * q == p && p != 0.0 && w == q / p
    ensures w * y == 1.0
  {
    assert w * p == q;
    assert w * (y * q) == (w * y) * q;
    Cancel(w * y, 1.0, q);
  }

  lemma RationalQuotient(x: real, y: real) returns (z: real)
    requires Rational(x) && Rational(y) && y != 0.0
    ensures z == x / y && Rational(z)
  {
    var p, q :| IsFraction(y, p, q);
    var w := q as real / p as real;
    var pr := p as real;
    if p == 0 {
      Cancel(y, 0.0, q as real);
    }
    Reciprocal(y, pr, q as real, w);
    assert IsFraction(w, if p > 0 then q else -q, if p > 0 then p else -p);
    assert x / y == x * w by {
      assert (x / y) * y == x && (x * w) * y == x * (w * y);
      Cancel(x / y, x * w, y);
    }
    z := RationalProduct(x, w);
  }

  /** The square root of three is irrational: no integers satisfy x^2 == 3 y^2 but zero. */
  lemma {:induction false} RootThreeIrrational(x: int, y: int)
    requires x * x == 3 * (y * y)
    ensures x == 0 && y == 0
    decreases if x < 0 then -x else x
  {
    if x != 0 {
      SquareDivisible(x);
      var z := x / 3;
      assert x == 3 * z;
      assert y * y == 3 * (z * z) by {
        assert x * x == 9 * (z * z);
      }
      assert (if y < 0 then -y else y) < (if x < 0 then -x else x) by {
        SmallerRoot(x, y);
      }
      RootThreeIrrational(y, z);
    }
  }

  lemma SmallerRoot(x: int, y: int)
    requires x * x == 3 * (y * y) && x != 0
    ensures (if y < 0 then -y else y) < (if x < 0 then -x else x)
  {
    var u, v := if x < 0 then -x else x, if y < 0 then -y else y;
    assert u * u == 3 * (v * v);
    assert v >= u ==> v * v >= u * u;
  }

  lemma SquareDivisible(x: int)
    requires (x * x) % 3 == 0
    ensures x % 3 == 0
  {
    var q, r := x / 3, x % 3;
    assert x == 3 * q + r;
    assert x * x == 3 * (3 * (q * q) + 2 * (q * r)) + r * r;
    assert r == 1 ==> r * r == 1;
    assert r == 2 ==> r * r == 4;
  }

  /** Clearing denominators turns a vanishing norm into an equation between integers. */
  lemma ClearDenominators(x: Elem, k: real, u: int, v: int)
    requires Norm(x) == 0.0 && u as real == x.a * k && v as real == x.b * k
    ensures u * u == 3 * (v * v)
  {
    var ur, vr := u as real, v as real;
    assert ur * ur == (x.a * x.a) * (k * k);
    assert vr * vr == (x.b * x.b) * (k * k);
    assert ur * ur == 3.0 * (vr * vr);
    assert (u * u) as real == ur * ur && (v * v) as real == vr * vr;
  }

  /** A non-zero field element never has norm zero, so it can always be divided by. */
  lemma NormNonZero(x: Elem)
    requires InField(x) && x != ZERO
    ensures Norm(x) != 0.0
  {
    if Norm(x) == 0.0 {
      var p, q :| IsFraction(x.a, p, q);
      var r, s :| IsFraction(x.b, r, s);
      var k := CommonMultiple(x, p, q, r, s);
      ClearDenominators(x, k, p * s, r * q);
      RootThreeIrrational(p * s, r * q);
      Cancel(x.a, 0.0, k);
      Cancel(x.b, 0.0, k);
    }
  }

  lemma CommonMultiple(x: Elem, p: int, q: int, r: int, s: int) returns (k: real)
    requires IsFraction(x.a, p, q) && IsFraction(x.b, r, s)
    ensures k != 0.0 && (p * s) as real == x.a * k && (r * q) as real == x.b * k
  {
    var qr, sr := q as real, s as real;
    k := qr * sr;
    assert (p * s) as real == p as real * sr && (r * q) as real == r as real * qr;
    assert (x.a * qr) * sr == x.a * k && (x.b * sr) * qr == x.b * k;
  }

  lemma RationalCombination(x: real, y: real)
    requires Rational(x) && Rational(y)
    ensures Rational(x + 3.0 * y) && Rational(x - 3.0 * y)
  {
    assert IsFraction(3.0, 3, 1);
    var z := RationalProduct(3.0, y);
    RationalSum(x, z);
  }

  /** Sums, differences and products stay in the field. */
  lemma FieldClosed(x: Elem, y: Elem)
    requires InField(x) && InField(y)
    ensures InField(Add(x, y)) && InField(Sub(x, y)) && InField(Mul(x, y))
  {
    RationalSum(x.a, y.a);
    RationalSum(x.b, y.b);
    var aa := RationalProduct(x.a, y.a);
    var bb := RationalProduct(x.b, y.b);
    RationalCombination(aa, bb);
    var ab := RationalProduct(x.a, y.b);
    var ba := RationalProduct(y.a, x.b);
    RationalSum(ab, ba);
    var product := Elem(aa + 3.0 * bb, ab + ba);
    assert InField(product) && Mul(x, y) == product;
  }

  /** So do quotients by anything but zero. */
  lemma QuotientInField(x: Elem, y: Elem)
    requires InField(x) && InField(y) && y != ZERO
    ensures Norm(y) != 0.0 && InField(Div(x, y))
  {
    NormNonZero(y);
    var cc := RationalProduct(y.a, y.a);
    var dd := RationalProduct(y.b, y.b);
    RationalCombination(cc, dd);
    var aa := RationalProduct(x.a, y.a);
    var bb := RationalProduct(x.b, y.b);
    RationalCombination(aa, bb);
    var ba := RationalProduct(x.b, y.a);
    var ab := RationalProduct(x.a, y.b);
    RationalSum(ba, ab);
    var n := cc - 3.0 * dd;
    var p := RationalQuotient(aa - 3.0 * bb, n);
    var q := RationalQuotient(ba - ab, n);
    assert Div(x, y) == Elem(p, q);
  }
}
