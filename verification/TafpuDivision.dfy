/**
 Division of TAFPU numbers: it rationalises the denominator and rounds the
 coefficients, so a quotient is exact only when both divisions come out even.
 */
module TafpuDivision {
  import opened Tafpu
  import Field

  datatype Quotient =
    | Isotropic          // the exception: the norm of the divisor is zero
    | Quotient(n: Num)

  function Abs(x: int): nat {
    if x < 0 then -x else x
  }

  /** Division that truncates towards zero, and its remainder. */
  function TruncDiv(n: int, d: int): int
    requires d > 0
  {
    if n >= 0 then n / d else -((-n) / d)
  }

  function TruncRem(n: int, d: int): int
    requires d > 0
  {
    n - d * TruncDiv(n, d)
  }

  /** Rounds to nearest, halves away from zero. */
  function RoundDiv(num: int, den: int): int
    requires den != 0
  {
    var n, d := if den < 0 then -num else num, Abs(den);
    var q := TruncDiv(n, d);
    if 2 * Abs(TruncRem(n, d)) >= d then (if n >= 0 then q + 1 else q - 1) else q
  }

  function Norm(y: Num): int {
    y.a * y.a - 3 * (y.b * y.b)
  }

  function NumeratorA(x: Num, y: Num): int {
    x.a * y.a - 3 * (x.b * y.b)
  }

  function NumeratorB(x: Num, y: Num): int {
    x.b * y.a - x.a * y.b
  }

  function DivSpec(x: Num, y: Num, scaleL: nat): Quotient {
    var den, p := Norm(y), Pow3(scaleL);
    if den == 0 then Isotropic
    else Quotient(Num(RoundDiv(NumeratorA(x, y) * p, den), RoundDiv(NumeratorB(x, y) * p, den), x.s - y.s - 2 * scaleL))
  }

  method Div(x: Num, y: Num, scaleL: nat) returns (out: Quotient)
    ensures out == DivSpec(x, y, scaleL)
  {
    var den := Norm(y);
    if den == 0 {
      return Isotropic;
    }
    var scale := 1;
    for i := 0 to scaleL
      invariant scale == Pow3(i)
    {
      scale := scale * 3;
    }
    return Quotient(Num(RoundDiv(NumeratorA(x, y) * scale, den), RoundDiv(NumeratorB(x, y) * scale, den),
                        x.s - y.s - 2 * scaleL));
  }

  /** Only zero is isotropic. */
  lemma IsotropicIff(x: Num, y: Num, scaleL: nat)
    ensures DivSpec(x, y, scaleL) == Isotropic <==> y.a == 0 && y.b == 0
  {
    if Norm(y) == 0 {
      Field.RootThreeIrrational(y.a, y.b);
    }
  }

  lemma TruncFacts(n: int, d: int)
    requires d > 0
    ensures n == d * TruncDiv(n, d) + TruncRem(n, d) && Abs(TruncRem(n, d)) < d
    ensures n >= 0 ==> TruncRem(n, d) >= 0
    ensures n <= 0 ==> TruncRem(n, d) <= 0
  {
    if n < 0 {
      var q := (-n) / d;
      assert d * -q == -(d * q);
      assert TruncRem(n, d) == -((-n) % d);
    }
  }

  lemma Neighbours(d: int, q: int)
    ensures d * (q + 1) == d * q + d && d * (q - 1) == d * q - d
  {
  }

  /** The rounded quotient is a nearest integer, and of two the one farther from zero. */
  lemma RoundDivNearest(num: int, den: int)
    requires den != 0
    ensures 2 * Abs(num - den * RoundDiv(num, den)) <= Abs(den)
    ensures 2 * Abs(num - den * RoundDiv(num, den)) == Abs(den) ==> Abs(den * RoundDiv(num, den)) > Abs(num)
  {
    var n, d := if den < 0 then -num else num, Abs(den);
    var r := RoundDiv(num, den);
    RoundsTo(n, d, r);
    Opposite(den, d, r);
  }

  lemma Opposite(den: int, d: int, r: int)
    requires d == Abs(den)
    ensures den * r == if den < 0 then -(d * r) else d * r
  {
  }

  lemma RoundsTo(n: int, d: int, r: int)
    requires d > 0 && r == RoundDiv(n, d)
    ensures 2 * Abs(n - d * r) <= d && (2 * Abs(n - d * r) == d ==> Abs(d * r) > Abs(n))
  {
    TruncFacts(n, d);
    Neighbours(d, TruncDiv(n, d));
  }

  lemma RoundDivExactIff(num: int, den: int)
    requires den != 0
    ensures den * RoundDiv(num, den) == num <==> num % den == 0
  {
    RoundDivNearest(num, den);
    NearestIsExactIff(num, den, RoundDiv(num, den));
  }

  lemma NearestIsExactIff(num: int, den: int, r: int)
    requires den != 0 && 2 * Abs(num - den * r) <= Abs(den)
    ensures den * r == num <==> num % den == 0
  {
    if num % den == 0 {
      WholeMultiple(num, den, num / den, r);
    } else {
      NotWhole(num, den, r);
    }
  }

  lemma WholeMultiple(num: int, den: int, k: int, r: int)
    requires den != 0 && num == den * k && 2 * Abs(num - den * r) <= Abs(den)
    ensures den * r == num
  {
    assert num - den * r == den * (k - r);
    NearMultiple(den, k - r);
  }

  lemma NotWhole(num: int, den: int, r: int)
    requires den != 0 && num % den != 0
    ensures den * r != num
  {
    if den * r == num {
      var k, m := num / den, num % den;
      assert den * (r - k) == m;
      Opposite(den, Abs(den), r - k);
    }
  }

  lemma NearMultiple(den: int, d: int)
    requires den != 0 && 2 * Abs(den * d) <= Abs(den)
    ensures d == 0
  {
    assert Abs(den * d) == Abs(den) * Abs(d);
    assert Abs(d) >= 1 ==> Abs(den) * Abs(d) >= Abs(den);
  }

  lemma CancelInt(x: int, y: int, n: int)
    requires n != 0 && n * x == n * y
    ensures x == y
  {
    assert n * (x - y) == 0;
  }

  lemma TimesConjugate(a: int, b: int, u: int, v: int)
    ensures (u * a + 3 * (v * b)) * a - 3 * ((u * b + v * a) * b) == (a * a - 3 * (b * b)) * u
    ensures (u * b + v * a) * a - (u * a + 3 * (v * b)) * b == (a * a - 3 * (b * b)) * v
  {
  }

  lemma Distribute(n: int, a: int, b: int, u: int, v: int)
    ensures n * (u * a + 3 * (v * b)) == (n * u) * a + 3 * ((n * v) * b)
    ensures n * (u * b + v * a) == (n * u) * b + (n * v) * a
  {
  }

  lemma NumeratorsRecombine(a: int, b: int, e: int, f: int)
    ensures (e * a - 3 * (f * b)) * a + 3 * ((f * a - e * b) * b) == (a * a - 3 * (b * b)) * e
    ensures (e * a - 3 * (f * b)) * b + (f * a - e * b) * a == (a * a - 3 * (b * b)) * f
  {
  }

  /** Coefficients (u, v) times the divisor give (e, f) exactly when the norm times them gives the numerators. */
  lemma Rationalised(a: int, b: int, u: int, v: int, e: int, f: int, n: int)
    requires n == a * a - 3 * (b * b) && n != 0
    ensures u * a + 3 * (v * b) == e && u * b + v * a == f <==> n * u == e * a - 3 * (f * b) && n * v == f * a - e * b
  {
    var g, h := u * a + 3 * (v * b), u * b + v * a;
    TimesConjugate(a, b, u, v);
    if n * u == e * a - 3 * (f * b) && n * v == f * a - e * b {
      Distribute(n, a, b, u, v);
      NumeratorsRecombine(a, b, e, f);
      CancelInt(g, e, n);
      CancelInt(h, f, n);
    }
  }

  /** A quotient times its divisor gives the dividend back exactly when the norm divides
      both scaled numerators. */
  lemma DivisionExactIff(x: Num, y: Num, scaleL: nat, q: Root)
    requires IsRootThree(q) && Norm(y) != 0
    ensures Value(DivSpec(x, y, scaleL).n, q) * Value(y, q) == Value(x, q) <==>
            (NumeratorA(x, y) * Pow3(scaleL)) % Norm(y) == 0 && (NumeratorB(x, y) * Pow3(scaleL)) % Norm(y) == 0
  {
    var n, p := DivSpec(x, y, scaleL).n, Pow3(scaleL);
    QuotientTimesDivisor(x, y, n, p);
    ScaledProduct(x, y, n, scaleL, q);
    RoundDivExactIff(NumeratorA(x, y) * p, Norm(y));
    RoundDivExactIff(NumeratorB(x, y) * p, Norm(y));
  }

  lemma ScaledProduct(x: Num, y: Num, n: Num, k: nat, q: Root)
    requires IsRootThree(q) && n.s == x.s - y.s - 2 * k
    ensures Value(n, q) * Value(y, q) == Value(x, q) <==>
            Product(n, y) == Num(x.a * Pow3(k), x.b * Pow3(k), x.s - 2 * k)
  {
    ProductValue(n, y, q);
    ScaledValue(x, k, q);
    SameNumber(Product(n, y), Num(x.a * Pow3(k), x.b * Pow3(k), x.s - 2 * k), q);
  }

  lemma QuotientTimesDivisor(x: Num, y: Num, n: Num, p: int)
    requires Norm(y) != 0
    ensures Product(n, y).a == x.a * p && Product(n, y).b == x.b * p <==>
            Norm(y) * n.a == NumeratorA(x, y) * p && Norm(y) * n.b == NumeratorB(x, y) * p
  {
    Rationalised(y.a, y.b, n.a, n.b, x.a * p, x.b * p, Norm(y));
    ScaledNumerators(x.a, x.b, y.a, y.b, p);
  }

  lemma ScaledNumerators(xa: int, xb: int, a: int, b: int, p: int)
    ensures (xa * p) * a - 3 * ((xb * p) * b) == (xa * a - 3 * (xb * b)) * p
    ensures (xb * p) * a - (xa * p) * b == (xb * a - xa * b) * p
  {
  }

  /** Whatever the operands: with the numbers `e` and `f` that make (e + f sqrt 3) times the divisor the
      dividend times the norm, each coefficient of the quotient is the nearest integer to its scaled
      fraction, halves away from zero, at the exponent of the fraction. */
  lemma QuotientIsNearest(x: Num, y: Num, scaleL: nat, e: int, f: int)
    requires Norm(y) != 0
    requires e * y.a + 3 * (f * y.b) == x.a * Norm(y) && e * y.b + f * y.a == x.b * Norm(y)
    ensures DivSpec(x, y, scaleL).Quotient?
    ensures var n, d := DivSpec(x, y, scaleL).n, Norm(y);
      var u, v := e * Pow3(scaleL), f * Pow3(scaleL);
      && n.s == x.s - y.s - 2 * scaleL
      && 2 * Abs(u - d * n.a) <= Abs(d) && (2 * Abs(u - d * n.a) == Abs(d) ==> Abs(d * n.a) > Abs(u))
      && 2 * Abs(v - d * n.b) <= Abs(d) && (2 * Abs(v - d * n.b) == Abs(d) ==> Abs(d * n.b) > Abs(v))
  {
    OneFraction(x.a, x.b, y.a, y.b, e, f, Norm(y));
    RoundDivNearest(e * Pow3(scaleL), Norm(y));
    RoundDivNearest(f * Pow3(scaleL), Norm(y));
  }

  lemma OneFraction(xa: int, xb: int, a: int, b: int, e: int, f: int, n: int)
    requires n == a * a - 3 * (b * b) && n != 0 && e * a + 3 * (f * b) == xa * n && e * b + f * a == xb * n
    ensures e == xa * a - 3 * (xb * b) && f == xb * a - xa * b
  {
    TimesConjugate(a, b, e, f);
    assert (xa * n) * a - 3 * ((xb * n) * b) == n * (xa * a - 3 * (xb * b));
    assert (xb * n) * a - (xa * n) * b == n * (xb * a - xa * b);
    CancelInt(e, xa * a - 3 * (xb * b), n);
    CancelInt(f, xb * a - xa * b, n);
  }

  lemma HalfRoundsUp(num: int, den: int)
    requires num == 2 && den == 4
    ensures RoundDiv(num, den) == 1 && RoundDiv(0, den) == 0
  {
    assert TruncDiv(num, den) == 0 && TruncDiv(0, den) == 0;
  }

  lemma WithoutScale(x: Num, y: Num, den: int, numA: int, numB: int)
    requires den == Norm(y) && den != 0 && numA == NumeratorA(x, y) && numB == NumeratorB(x, y)
    ensures DivSpec(x, y, 0) == Quotient(Num(RoundDiv(numA, den), RoundDiv(numB, den), x.s - y.s))
  {
    assert Pow3(0) == 1;
    assert numA * 1 == numA && numB * 1 == numB;
  }

  lemma NormOfTwo(x: Num, y: Num) returns (den: int, numA: int, numB: int)
    requires x.a == 1 && x.b == 0 && y.a == 2 && y.b == 0
    ensures den == Norm(y) == 4 && numA == NumeratorA(x, y) == 2 && numB == NumeratorB(x, y) == 0
  {
    den, numA, numB := 4, 2, 0;
  }

  lemma HalfQuotient(x: Num, y: Num)
    requires x.a == 1 && x.b == 0 && y.a == 2 && y.b == 0
    ensures DivSpec(x, y, 0) == Quotient(Num(1, 0, x.s - y.s))
  {
    var den, numA, numB := NormOfTwo(x, y);
    WithoutScale(x, y, den, numA, numB);
    HalfRoundsUp(numA, den);
  }

  /** One divided by two is one: the solver's promise of no rounding fails at its division. */
  lemma HalfIsRounded(one: Num, two: Num, q: Root)
    requires IsRootThree(q) && one.a == 1 && one.b == 0 && two.a == 2 && two.b == 0 && two.s == 0
    ensures DivSpec(one, two, 0) == Quotient(one) && Value(one, q) * Value(two, q) != Value(one, q)
  {
    HalfQuotient(one, two);
    TwiceIsNotOnce(one, two, q);
  }

  lemma TwiceIsNotOnce(one: Num, two: Num, q: Root)
    requires IsRootThree(q) && one.a == 1 && one.b == 0 && two.a == 2 && two.b == 0 && two.s == 0
    ensures Value(one, q) * Value(two, q) != Value(one, q)
  {
    UnitProduct(one, two);
    NotTheDividend(one, two, Product(one, two), q);
  }

  lemma UnitProduct(x: Num, y: Num)
    requires x.a == 1 && x.b == 0
    ensures Product(x, y).a == y.a
  {
  }

  lemma NotTheDividend(x: Num, y: Num, p: Num, q: Root)
    requires IsRootThree(q) && p == Product(x, y) && p.s == x.s && p.a != x.a
    ensures Value(x, q) * Value(y, q) != Value(x, q)
  {
    ProductValue(x, y, q);
    SameNumber(p, x, q);
  }
}
