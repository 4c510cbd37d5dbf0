/**
 TAFPU numbers (a + b * sqrt 3) * 3^(s/2) in 64-bit coefficients: when addition,
 subtraction, multiplication, division and comparison are exact.  The true number
 is taken with `r` for the square root of three, any positive real with r * r == 3.
 */
module Tafpu {
  import opened Bytes
  import Field

  datatype Num = Num(a: int, b: int, s: int)

  predicate Fits64(x: int) {
    -TWO_63 <= x < TWO_63
  }

  predicate Stored(x: Num) {
    Fits64(x.a) && Fits64(x.b)
  }

  // -------------------------------------------------------- the true number

  /** The square root of three and its powers, negative ones included. */
  datatype Root = Root(r: real, power: int -> real)

  predicate Step(q: Root, s: int) {
    q.power(s + 1) == q.r * q.power(s)
  }

  ghost predicate IsRootThree(q: Root) {
    && q.r > 0.0 && q.r * q.r == 3.0
    && q.power(0) == 1.0
    && forall s :: Step(q, s)
  }

  function Base(a: int, b: int, r: real): real {
    a as real + b as real * r
  }

  function Value(x: Num, q: Root): real {
    Base(x.a, x.b, q.r) * q.power(x.s)
  }

  function Pow3(k: nat): (p: nat)
    ensures p > 0
    decreases k
  {
    if k == 0 then 1 else 3 * Pow3(k - 1)
  }

  /** There is such a root: its powers are the usual ones. */
  function Power(r: real, s: int): real
    requires r > 0.0
    decreases if s < 0 then -s else s
  {
    if s == 0 then 1.0 else if s > 0 then r * Power(r, s - 1) else Power(r, s + 1) / r
  }

  lemma RootExists(r: real)
    requires r > 0.0 && r * r == 3.0
    ensures IsRootThree(Root(r, s => Power(r, s)))
  {
    var q := Root(r, s => Power(r, s));
    forall s ensures Step(q, s) {
      assert q.power(s + 1) == Power(r, s + 1) && q.power(s) == Power(r, s);
    }
  }

  lemma {:induction false} PowerPositive(q: Root, s: int)
    requires IsRootThree(q)
    ensures q.power(s) > 0.0
    decreases if s < 0 then -s else s
  {
    if s > 0 {
      PowerPositive(q, s - 1);
      assert Step(q, s - 1);
    } else if s < 0 {
      PowerPositive(q, s + 1);
      assert Step(q, s);
      SignOfFactor(q.r, q.power(s));
    }
  }

  lemma SignOfFactor(r: real, v: real)
    requires r > 0.0 && r * v > 0.0
    ensures v > 0.0
  {
    assert v < 0.0 ==> r * -v > 0.0;
  }

  lemma {:induction false} PowerSum(q: Root, s: int, t: int)
    requires IsRootThree(q)
    ensures q.power(s + t) == q.power(s) * q.power(t)
    decreases if t < 0 then -t else t
  {
    if t > 0 {
      PowerSum(q, s, t - 1);
      assert Step(q, s + t - 1) && Step(q, t - 1);
      StepUp(q.r, q.power(s), q.power(t - 1), q.power(t), q.power(s + t - 1), q.power(s + t));
    } else if t < 0 {
      PowerSum(q, s, t + 1);
      assert Step(q, s + t) && Step(q, t);
      StepDown(q.r, q.power(s), q.power(t), q.power(t + 1), q.power(s + t), q.power(s + t + 1));
    }
  }

  lemma StepUp(r: real, u: real, v: real, v1: real, w: real, w1: real)
    requires v1 == r * v && w1 == r * w && w == u * v
    ensures w1 == u * v1
  {
  }

  lemma StepDown(r: real, u: real, v: real, v1: real, w: real, w1: real)
    requires r != 0.0 && v1 == r * v && w1 == r * w && w1 == u * v1
    ensures w == u * v
  {
    assert w1 == (u * v) * r;
    Field.Cancel(w, u * v, r);
  }

  /** Two steps of the exponent are a factor of three. */
  lemma {:induction false} PowerEven(q: Root, s: int, k: nat)
    requires IsRootThree(q)
    ensures q.power(s + 2 * k) == Pow3(k) as real * q.power(s)
    decreases k
  {
    if k > 0 {
      var t := s + 2 * (k - 1);
      PowerEven(q, s, k - 1);
      assert Step(q, t) && Step(q, t + 1);
      TwoSteps(q.r, q.power(t), q.power(t + 1), q.power(t + 2), Pow3(k - 1), Pow3(k), q.power(s));
    }
  }

  lemma TwoSteps(r: real, p: real, p1: real, p2: real, n: int, n1: int, e: real)
    requires r * r == 3.0 && p == n as real * e && p1 == r * p && p2 == r * p1 && n1 == 3 * n
    ensures p2 == n1 as real * e
  {
    assert p2 == (r * r) * p;
    var x := n as real;
    assert n1 as real == 3.0 * x;
  }

  /** The square root of three is irrational, so coefficients are determined by the number. */
  lemma BaseZero(a: int, b: int, r: real)
    requires r > 0.0 && r * r == 3.0 && Base(a, b, r) == 0.0
    ensures a == 0 && b == 0
  {
    var x, y := a as real, b as real;
    assert x == -(y * r);
    assert x * x == (y * y) * (r * r);
    assert (a * a) as real == x * x && (b * b) as real == y * y;
    Field.RootThreeIrrational(a, b);
  }

  lemma BaseDifference(a: int, b: int, c: int, d: int, r: real)
    ensures Base(a, b, r) - Base(c, d, r) == Base(a - c, b - d, r)
  {
    var bb, dd := b as real, d as real;
    assert (b - d) as real == bb - dd;
  }

  /** At one exponent, equal numbers have equal coefficients. */
  lemma SameNumber(x: Num, y: Num, q: Root)
    requires IsRootThree(q) && x.s == y.s
    ensures Value(x, q) == Value(y, q) <==> x == y
  {
    if Value(x, q) == Value(y, q) {
      PowerPositive(q, x.s);
      Field.Cancel(Base(x.a, x.b, q.r), Base(y.a, y.b, q.r), q.power(x.s));
      BaseDifference(x.a, x.b, y.a, y.b, q.r);
      BaseZero(x.a - y.a, x.b - y.b, q.r);
    }
  }

  // ---------------------------------------------------------------- wrapping

  function WrapNum(x: Num): Num {
    Num(Wrap64(x.a), Wrap64(x.b), x.s)
  }

  lemma WrapIff(x: Num)
    ensures WrapNum(x) == x <==> Stored(x)
  {
  }

  lemma WrapProduct(x: int, y: int)
    ensures Wrap64(x * Wrap64(y)) == Wrap64(x * y)
  {
    var k := (y + TWO_63) / TWO_64;
    assert Wrap64(y) == y - k * TWO_64;
    assert x * Wrap64(y) == x * y + (-(x * k)) * TWO_64;
    WrapStep(x * y, -(x * k));
  }

  // ---------------------------------------------------- addition, subtraction

  datatype Outcome =
    | Exact(n: Num)
    | Rounded        // the fallback through floating point

  /** The sum at the smaller of two exponents an even distance apart. */
  function Sum(x: Num, y: Num): Num
    requires (x.s - y.s) % 2 == 0
  {
    if x.s >= y.s then
      var p := Pow3((x.s - y.s) / 2);
      Num(x.a * p + y.a, x.b * p + y.b, y.s)
    else
      var p := Pow3((y.s - x.s) / 2);
      Num(x.a + y.a * p, x.b + y.b * p, x.s)
  }

  function Neg(x: Num): Num {
    Num(-x.a, -x.b, x.s)
  }

  lemma ScaledValue(x: Num, k: nat, q: Root)
    requires IsRootThree(q)
    ensures Value(Num(x.a * Pow3(k), x.b * Pow3(k), x.s - 2 * k), q) == Value(x, q)
  {
    PowerEven(q, x.s - 2 * k, k);
    ScaledBase(x.a, x.b, Pow3(k), q.r);
    MoveFactor(Base(x.a, x.b, q.r), Base(x.a * Pow3(k), x.b * Pow3(k), q.r), Pow3(k) as real,
               q.power(x.s - 2 * k), q.power(x.s));
  }

  lemma MoveFactor(u: real, u1: real, p: real, e: real, f: real)
    requires u1 == u * p && f == p * e
    ensures u1 * e == u * f
  {
  }

  lemma ScaledBase(a: int, b: int, p: int, r: real)
    ensures Base(a * p, b * p, r) == Base(a, b, r) * p as real
  {
    var x, y, q := a as real, b as real, p as real;
    assert (a * p) as real == x * q && (b * p) as real == y * q;
    assert x * q + (y * q) * r == (x + y * r) * q;
  }

  lemma AddAligned(x: Num, y: Num, q: Root)
    requires x.s == y.s
    ensures Value(Num(x.a + y.a, x.b + y.b, x.s), q) == Value(x, q) + Value(y, q)
  {
    var b, d := x.b as real, y.b as real;
    assert (x.b + y.b) as real == b + d;
  }

  lemma SumValue(x: Num, y: Num, q: Root)
    requires IsRootThree(q) && (x.s - y.s) % 2 == 0
    ensures Value(Sum(x, y), q) == Value(x, q) + Value(y, q)
  {
    if x.s >= y.s {
      ScaledAdd(x, y, (x.s - y.s) / 2, q);
    } else {
      ScaledAdd(y, x, (y.s - x.s) / 2, q);
      var p := Pow3((y.s - x.s) / 2);
      assert Num(y.a * p + x.a, y.b * p + x.b, x.s) == Sum(x, y);
    }
  }

  lemma ScaledAdd(x: Num, y: Num, k: nat, q: Root)
    requires IsRootThree(q) && x.s - y.s == 2 * k
    ensures Value(Num(x.a * Pow3(k) + y.a, x.b * Pow3(k) + y.b, y.s), q) == Value(x, q) + Value(y, q)
  {
    ScaledValue(x, k, q);
    AddAligned(Num(x.a * Pow3(k), x.b * Pow3(k), y.s), y, q);
  }

  /** The loop that builds the power of three, in 64 bits. */
  method ScaleFactor(k: nat) returns (p: int)
    ensures p == Wrap64(Pow3(k))
  {
    p := 1;
    for i := 0 to k
      invariant p == Wrap64(Pow3(i))
    {
      WrapProduct(3, Pow3(i));
      p := Wrap64(3 * p);
    }
  }

  method AddC(x: Num, y: Num) returns (out: Outcome)
    ensures out == if (x.s - y.s) % 2 == 0 then Exact(WrapNum(Sum(x, y))) else Rounded
  {
    if x.s == y.s {
      return Exact(Num(Wrap64(x.a + y.a), Wrap64(x.b + y.b), x.s));
    }
    var diff := x.s - y.s;
    if diff > 0 && diff % 2 == 0 {
      var p := ScaleFactor(diff / 2);
      SumScalesFirst(x, y, diff / 2);
      return Exact(Num(Wrap64(Wrap64(x.a * p) + y.a), Wrap64(Wrap64(x.b * p) + y.b), y.s));
    } else if diff < 0 && (-diff) % 2 == 0 {
      var p := ScaleFactor((-diff) / 2);
      SumScalesSecond(x, y, (-diff) / 2);
      return Exact(Num(Wrap64(x.a + Wrap64(y.a * p)), Wrap64(x.b + Wrap64(y.b * p)), x.s));
    }
    return Rounded;
  }

  lemma SumScalesFirst(x: Num, y: Num, k: nat)
    requires x.s - y.s == 2 * k
    ensures var p := Wrap64(Pow3(k));
      WrapNum(Sum(x, y)) == Num(Wrap64(Wrap64(x.a * p) + y.a), Wrap64(Wrap64(x.b * p) + y.b), y.s)
  {
    SumAt(x, y, k);
    ScaledSum(x.a, Pow3(k), y.a);
    ScaledSum(x.b, Pow3(k), y.b);
  }

  lemma SumScalesSecond(x: Num, y: Num, k: nat)
    requires k > 0 && y.s - x.s == 2 * k
    ensures var p := Wrap64(Pow3(k));
      WrapNum(Sum(x, y)) == Num(Wrap64(x.a + Wrap64(y.a * p)), Wrap64(x.b + Wrap64(y.b * p)), x.s)
  {
    SumAt(y, x, k);
    ScaledSum(y.a, Pow3(k), x.a);
    ScaledSum(y.b, Pow3(k), x.b);
  }

  /** The sum does not depend on the order of its operands. */
  lemma SumAt(x: Num, y: Num, k: nat)
    requires x.s - y.s == 2 * k
    ensures Sum(x, y) == Sum(y, x) == Num(x.a * Pow3(k) + y.a, x.b * Pow3(k) + y.b, y.s)
  {
    assert (x.s - y.s) / 2 == k;
    assert k == 0 ==> Pow3(k) == 1;
  }

  lemma ScaledSum(x: int, p: int, y: int)
    ensures Wrap64(Wrap64(x * Wrap64(p)) + y) == Wrap64(x * p + y)
  {
    WrapProduct(x, p);
    WrapAbsorbsInner(x * p, y);
  }

  method SubC(x: Num, y: Num) returns (out: Outcome)
    ensures out == if (x.s - y.s) % 2 == 0 then Exact(WrapNum(Sum(x, Neg(y)))) else Rounded
  {
    if x.s == y.s {
      return Exact(Num(Wrap64(x.a - y.a), Wrap64(x.b - y.b), x.s));
    }
    out := AddC(x, Num(Wrap64(-y.a), Wrap64(-y.b), y.s));
    if (x.s - y.s) % 2 == 0 {
      WrappedOperand(x, Neg(y));
    }
  }

  lemma WrappedOperand(x: Num, y: Num)
    requires (x.s - y.s) % 2 == 0
    ensures WrapNum(Sum(x, WrapNum(y))) == WrapNum(Sum(x, y))
  {
    var w := WrapNum(y);
    if x.s >= y.s {
      var k := (x.s - y.s) / 2;
      SumAt(x, y, k);
      SumAt(x, w, k);
      WrapAbsorbsInner(y.a, x.a * Pow3(k));
      WrapAbsorbsInner(y.b, x.b * Pow3(k));
    } else {
      var k := (y.s - x.s) / 2;
      SumAt(y, x, k);
      SumAt(w, x, k);
      WrappedTerm(x.a, Pow3(k), y.a);
      WrappedTerm(x.b, Pow3(k), y.b);
    }
  }

  lemma WrappedTerm(x: int, p: int, y: int)
    ensures Wrap64(Wrap64(y) * p + x) == Wrap64(y * p + x)
  {
    var k := (y + TWO_63) / TWO_64;
    assert Wrap64(y) == y - k * TWO_64;
    var j := k * p;
    assert (y - k * TWO_64) * p == y * p - j * TWO_64;
    WrapStep(x + y * p, -j);
  }

  /** With an even gap between the exponents, addition is exact exactly when the sum's
      coefficients fit in 64 bits. */
  lemma AddExactIff(x: Num, y: Num, q: Root)
    requires IsRootThree(q) && (x.s - y.s) % 2 == 0
    ensures Value(WrapNum(Sum(x, y)), q) == Value(x, q) + Value(y, q) <==> Stored(Sum(x, y))
  {
    SumValue(x, y, q);
    SameNumber(WrapNum(Sum(x, y)), Sum(x, y), q);
    WrapIff(Sum(x, y));
  }

  lemma SubExactIff(x: Num, y: Num, q: Root)
    requires IsRootThree(q) && (x.s - y.s) % 2 == 0
    ensures Value(WrapNum(Sum(x, Neg(y))), q) == Value(x, q) - Value(y, q) <==> Stored(Sum(x, Neg(y)))
  {
    AddExactIff(x, Neg(y), q);
    NegValue(y, q);
  }

  lemma NegValue(y: Num, q: Root)
    ensures Value(Neg(y), q) == -Value(y, q)
  {
    var b := y.b as real;
    assert (-y.b) as real == -b;
    assert Base(-y.a, -y.b, q.r) == -Base(y.a, y.b, q.r);
  }

  /** The sum is at the smaller exponent. */
  lemma SumExponent(x: Num, y: Num)
    requires (x.s - y.s) % 2 == 0
    ensures Sum(x, y).s == if x.s <= y.s then x.s else y.s
  {
  }

  // ------------------------------------------------------------ multiplication

  const TWO_127: int := 0x8000_0000_0000_0000_0000_0000_0000_0000
  const TWO_128: int := 0x1_0000_0000_0000_0000_0000_0000_0000_0000

  predicate Fits128(x: int) {
    -TWO_127 <= x < TWO_127
  }

  /** The 128-bit integer left of a mathematical one. */
  function Wrap128(x: int): (y: int)
    ensures Fits128(y)
  {
    (x + TWO_127) % TWO_128 - TWO_127
  }

  function Saturate(x: int): int {
    if x >= TWO_63 then TWO_63 - 1 else if x < -TWO_63 then -TWO_63 else x
  }

  function Product(x: Num, y: Num): Num {
    Num(x.a * y.a + 3 * (x.b * y.b), x.a * y.b + x.b * y.a, x.s + y.s)
  }

  function MulC(x: Num, y: Num): Num {
    var p := Product(x, y);
    Num(Saturate(Wrap128(p.a)), Saturate(Wrap128(p.b)), p.s)
  }

  lemma BaseProduct(x: Num, y: Num, r: real)
    requires r * r == 3.0
    ensures Base(Product(x, y).a, Product(x, y).b, r) == Base(x.a, x.b, r) * Base(y.a, y.b, r)
  {
    var a, b, c, d := x.a as real, x.b as real, y.a as real, y.b as real;
    assert (x.a * y.a) as real == a * c && (x.b * y.b) as real == b * d;
    assert (x.a * y.b) as real == a * d && (x.b * y.a) as real == b * c;
    var p := Product(x, y);
    assert p.a as real == a * c + 3.0 * (b * d) && p.b as real == a * d + b * c;
    Expand(a, b, c, d, r);
  }

  lemma Expand(a: real, b: real, c: real, d: real, r: real)
    requires r * r == 3.0
    ensures (a + b * r) * (c + d * r) == (a * c + 3.0 * (b * d)) + (a * d + b * c) * r
  {
    assert (a + b * r) * (c + d * r) == a * c + (b * d) * (r * r) + (a * d + b * c) * r;
  }

  lemma ProductValue(x: Num, y: Num, q: Root)
    requires IsRootThree(q)
    ensures Value(Product(x, y), q) == Value(x, q) * Value(y, q)
  {
    BaseProduct(x, y, q.r);
    PowerSum(q, x.s, y.s);
    var u, v, p, q := Base(x.a, x.b, q.r), Base(y.a, y.b, q.r), q.power(x.s), q.power(y.s);
    assert (u * v) * (p * q) == (u * p) * (v * q);
  }

  /** Multiplication is exact exactly when the product's coefficients fit in 64 bits. */
  lemma MulExactIff(x: Num, y: Num, q: Root)
    requires IsRootThree(q)
    ensures Value(MulC(x, y), q) == Value(x, q) * Value(y, q) <==> Stored(Product(x, y))
  {
    ProductValue(x, y, q);
    SameNumber(MulC(x, y), Product(x, y), q);
  }

  lemma ProductBound(x: int, y: int, t: int)
    requires -t <= x <= t && -t <= y <= t
    ensures -(t * t) <= x * y <= t * t
  {
    BoundedAbove(x, y, t);
    BoundedAbove(x, -y, t);
    assert x * -y == -(x * y);
  }

  lemma BoundedAbove(x: int, y: int, t: int)
    requires -t <= x <= t && -t <= y <= t
    ensures x * y <= t * t
  {
    var u, v := t - x, t + y;
    var w, z := t + x, t - y;
    assert u * v >= 0 && w * z >= 0;
    assert u * v == t * t + t * y - x * t - x * y;
    assert w * z == t * t - t * y + x * t - x * y;
  }

  /** Otherwise it saturates towards the right side exactly when the product fits in 128 bits. */
  lemma MulSaturatesIff(x: Num, y: Num)
    requires Stored(x) && Stored(y)
    ensures MulC(x, y).a == Saturate(Product(x, y).a) <==> Fits128(Product(x, y).a)
    ensures MulC(x, y).b == Saturate(Product(x, y).b) <==> Fits128(Product(x, y).b)
  {
    ProductBound(x.a, y.a, TWO_63);
    ProductBound(x.b, y.b, TWO_63);
    ProductBound(x.a, y.b, TWO_63);
    ProductBound(x.b, y.a, TWO_63);
    assert TWO_63 * TWO_63 == TWO_127 / 2;
    SaturationIff(Product(x, y).a);
    SaturationIff(Product(x, y).b);
  }

  /** Among the 64-bit integers none is closer. */
  lemma SaturateIsNearest(x: int, t: int)
    requires -TWO_63 <= t < TWO_63
    ensures -TWO_63 <= Saturate(x) < TWO_63
    ensures (if Saturate(x) <= x then x - Saturate(x) else Saturate(x) - x) <= (if t <= x then x - t else t - x)
  {
  }

  function Distance(x: int, y: int): nat {
    if x <= y then y - x else x - y
  }

  lemma StoredIsNearest(p: int, t: int)
    requires Fits128(p) && -TWO_63 <= t < TWO_63
    ensures Distance(p, Saturate(Wrap128(p))) <= Distance(p, t)
  {
    SaturateIsNearest(p, t);
  }

  /** Exponents add up, and a coefficient that fits in 128 bits becomes the nearest that can be stored. */
  lemma MulIsNearest(x: Num, y: Num, a: int, b: int, t: int)
    requires -TWO_63 <= t < TWO_63 && a == x.a * y.a + 3 * (x.b * y.b) && b == x.a * y.b + x.b * y.a
    ensures MulC(x, y).s == x.s + y.s
    ensures Fits128(a) ==> Distance(a, MulC(x, y).a) <= Distance(a, t)
    ensures Fits128(b) ==> Distance(b, MulC(x, y).b) <= Distance(b, t)
  {
    assert Product(x, y).a == a && Product(x, y).b == b;
    if Fits128(a) {
      StoredIsNearest(a, t);
    }
    if Fits128(b) {
      StoredIsNearest(b, t);
    }
  }

  lemma SaturationIff(p: int)
    requires -TWO_128 <= p <= TWO_128
    ensures Saturate(Wrap128(p)) == Saturate(p) <==> Fits128(p)
  {
    if p >= TWO_127 {
      assert (p + TWO_127) % TWO_128 == p + TWO_127 - TWO_128;
    } else if p < -TWO_127 {
      assert (p + TWO_127) % TWO_128 == p + TWO_127 + TWO_128;
    }
  }

  /** With every coefficient at the least 64-bit integer the product wraps to zero. */
  lemma LargeProductVanishes()
    ensures var m := Num(-TWO_63, -TWO_63, 0); MulC(m, m).a == 0 && Product(m, m).a > 0
  {
    var m := Num(-TWO_63, -TWO_63, 0);
    assert Product(m, m).a == TWO_128;
    assert (TWO_128 + TWO_127) % TWO_128 == TWO_127;
  }

  // -------------------------------------------------------------- comparison

  function CmpC(x: Num, y: Num): int
    requires x.s == y.s
  {
    var da, db := x.a - y.a, x.b - y.b;
    if da == 0 && db == 0 then 0
    else if da >= 0 && db >= 0 then 1
    else if da <= 0 && db <= 0 then -1
    else
      var lhs, rhs := Wrap128(da * da), Wrap128(3 * (db * db));
      if da > 0 then (if lhs > rhs then 1 else -1) else (if lhs < rhs then 1 else -1)
  }

  function Sign(v: real): int {
    if v > 0.0 then 1 else if v < 0.0 then -1 else 0
  }

  /** The sign of da + db * r when the two terms pull in opposite directions. */
  lemma OppositeSigns(da: int, db: int, r: real)
    requires r > 0.0 && r * r == 3.0 && da > 0 > db
    ensures Base(da, db, r) != 0.0 && da * da != 3 * (db * db)
    ensures Base(da, db, r) > 0.0 <==> da * da > 3 * (db * db)
  {
    var x, y := da as real, (-db) as real;
    assert Base(da, db, r) == x - y * r;
    if Base(da, db, r) == 0.0 {
      BaseZero(da, db, r);
    }
    if da * da == 3 * (db * db) {
      Field.RootThreeIrrational(da, db);
    }
    assert (da * da) as real == x * x && (db * db) as real == y * y;
    var t := y * r;
    assert t * t == 3.0 * (y * y);
    assert t > 0.0;
    SquareOrder(x, t);
  }

  lemma SquareOrder(x: real, t: real)
    requires x > 0.0 && t > 0.0
    ensures x > t <==> x * x > t * t
  {
    assert (x - t) * (x + t) == x * x - t * t;
    if x > t {
      assert (x - t) * (x + t) > 0.0;
    } else {
      assert (t - x) * (x + t) >= 0.0;
    }
  }

  /** How many turns of 2^128 a square loses. */
  function Turns(x: int): int {
    (x + TWO_127) / TWO_128
  }

  predicate Opposed(x: Num, y: Num) {
    (x.a > y.a && x.b < y.b) || (x.a < y.a && x.b > y.b)
  }

  /** What wraps around puts the squares in the wrong order: the larger one loses more turns,
      and the difference is too small to make up for them. The comparison asks whether `lhs`
      is the larger one, so a tie counts against `lhs` only. */
  predicate OrderLost(lhs: int, rhs: int) {
    || 0 < lhs - rhs <= (Turns(lhs) - Turns(rhs)) * TWO_128
    || 0 < rhs - lhs < (Turns(rhs) - Turns(lhs)) * TWO_128
  }

  /** The squares that the comparison compares, in the order in which it does. */
  predicate SquaresLost(da: int, db: int) {
    if da > 0 then OrderLost(da * da, 3 * (db * db)) else OrderLost(3 * (db * db), da * da)
  }

  lemma OrderLostIff(lhs: int, rhs: int)
    requires lhs != rhs
    ensures (Wrap128(lhs) > Wrap128(rhs) <==> lhs > rhs) <==> !OrderLost(lhs, rhs)
  {
    var m, n := Turns(lhs), Turns(rhs);
    assert lhs == Wrap128(lhs) + m * TWO_128 && rhs == Wrap128(rhs) + n * TWO_128;
    TurnsOrder(lhs, rhs, Wrap128(lhs), Wrap128(rhs), m - n);
    TurnsOrder(rhs, lhs, Wrap128(rhs), Wrap128(lhs), n - m);
  }

  /** More turns than the other one make the number larger, whatever is left of both. */
  lemma TurnsOrder(x: int, y: int, u: int, v: int, k: int)
    requires x - y == u - v + k * TWO_128 && -TWO_127 <= u < TWO_127 && -TWO_127 <= v < TWO_127
    ensures k > 0 ==> x > y
    ensures u > v <==> x - y > k * TWO_128
  {
  }

  lemma FitsNeverLost(lhs: int, rhs: int)
    requires Fits128(lhs) && Fits128(rhs)
    ensures !OrderLost(lhs, rhs)
  {
  }

  /** The true sign of the difference, from the squares of the coefficients' differences. */
  function ExactCmp(da: int, db: int): int {
    if da == 0 && db == 0 then 0
    else if da >= 0 && db >= 0 then 1
    else if da <= 0 && db <= 0 then -1
    else if da > 0 then (if da * da > 3 * (db * db) then 1 else -1)
    else (if da * da < 3 * (db * db) then 1 else -1)
  }

  lemma ExactCmpIsSign(da: int, db: int, r: real)
    requires r > 0.0 && r * r == 3.0
    ensures ExactCmp(da, db) == Sign(Base(da, db, r))
  {
    var y := db as real;
    if da > 0 > db {
      OppositeSigns(da, db, r);
    } else if da < 0 < db {
      OppositeSigns(-da, -db, r);
      BaseDifference(0, 0, da, db, r);
    } else {
      assert db > 0 ==> y * r > 0.0;
      assert db < 0 ==> y * r < 0.0;
    }
  }

  lemma DifferenceSign(x: Num, y: Num, q: Root)
    requires IsRootThree(q) && x.s == y.s
    ensures Sign(Value(x, q) - Value(y, q)) == Sign(Base(x.a - y.a, x.b - y.b, q.r))
  {
    BaseDifference(x.a, x.b, y.a, y.b, q.r);
    PowerPositive(q, x.s);
    var u, v, p := Base(x.a, x.b, q.r), Base(y.a, y.b, q.r), q.power(x.s);
    assert u * p - v * p == (u - v) * p;
    assert u - v > 0.0 ==> (u - v) * p > 0.0;
    assert u - v < 0.0 ==> (v - u) * p > 0.0;
  }

  lemma CmpIff(x: Num, y: Num)
    requires x.s == y.s
    ensures var da, db := x.a - y.a, x.b - y.b;
      CmpC(x, y) == ExactCmp(da, db) <==> !(Opposed(x, y) && SquaresLost(da, db))
  {
    var da, db := x.a - y.a, x.b - y.b;
    if Opposed(x, y) {
      var lhs, rhs := da * da, 3 * (db * db);
      if lhs == rhs {
        Field.RootThreeIrrational(da, db);
      }
      OrderLostIff(lhs, rhs);
      OrderLostIff(rhs, lhs);
    }
  }

  /** At equal exponents the comparison is the true sign of the difference unless the
      differences pull in opposite directions and their squares lose their order. */
  lemma CmpIsSignIff(x: Num, y: Num, q: Root)
    requires IsRootThree(q) && x.s == y.s
    ensures CmpC(x, y) == Sign(Value(x, q) - Value(y, q))
       <==> !(Opposed(x, y) && SquaresLost(x.a - y.a, x.b - y.b))
  {
    DifferenceSign(x, y, q);
    ExactCmpIsSign(x.a - y.a, x.b - y.b, q.r);
    CmpIff(x, y);
  }

  /** As long as both squares fit in 128 bits the comparison is right. */
  lemma CmpRightWhenSquaresFit(x: Num, y: Num, q: Root)
    requires IsRootThree(q) && x.s == y.s
    requires Fits128((x.a - y.a) * (x.a - y.a)) && Fits128(3 * ((x.b - y.b) * (x.b - y.b)))
    ensures CmpC(x, y) == Sign(Value(x, q) - Value(y, q))
  {
    CmpIsSignIff(x, y, q);
    FitsNeverLost((x.a - y.a) * (x.a - y.a), 3 * ((x.b - y.b) * (x.b - y.b)));
    FitsNeverLost(3 * ((x.b - y.b) * (x.b - y.b)), (x.a - y.a) * (x.a - y.a));
  }

  const TWO_61: int := 0x2000_0000_0000_0000

  predicate Small(x: Num) {
    -TWO_61 <= x.a <= TWO_61 && -TWO_61 <= x.b <= TWO_61
  }

  lemma SquareBound(d: int, m: int)
    requires -m <= d <= m
    ensures 0 <= d * d <= m * m
  {
    assert (m - d) * (m + d) == m * m - d * d;
    assert (m - d) * (m + d) >= 0;
  }

  /** Numbers whose coefficients leave three bits to spare are always compared correctly. */
  lemma SmallNumbersCompare(x: Num, y: Num, q: Root)
    requires IsRootThree(q) && x.s == y.s && Small(x) && Small(y)
    ensures CmpC(x, y) == Sign(Value(x, q) - Value(y, q))
  {
    SquareBound(x.a - y.a, 2 * TWO_61);
    SquareBound(x.b - y.b, 2 * TWO_61);
    CmpRightWhenSquaresFit(x, y, q);
  }

  /** Zero means equal, whatever the size of the operands. */
  lemma CmpZeroIff(x: Num, y: Num)
    requires x.s == y.s
    ensures CmpC(x, y) == 0 <==> x == y
  {
  }

  /** A comparison that comes out wrong: the square of the difference no longer fits. */
  lemma LargeComparisonFails(q: Root)
    requires IsRootThree(q)
    ensures var x, y := Num(TWO_63 - 1, 0, 0), Num(-TWO_63, 1, 0);
      CmpC(x, y) == -1 && Sign(Value(x, q) - Value(y, q)) == 1
  {
    var x, y := Num(TWO_63 - 1, 0, 0), Num(-TWO_63, 1, 0);
    var da := TWO_64 - 1;
    assert da * da == TWO_128 - 2 * TWO_64 + 1;
    assert Wrap128(da * da) == 1 - 2 * TWO_64;
    DifferenceSign(x, y, q);
    ExactCmpIsSign(da, -1, q.r);
  }
}
