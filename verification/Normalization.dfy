/**
 Periodic normalisation of TAFPU numbers: it steps the exponent, never the number.
 */
module Normalization {
  import opened Tafpu
  import Gcd
  import Field

  function Abs(x: int): nat {
    if x < 0 then -x else x
  }

  /** The size that normalisation brings down. */
  function Size(x: Num): nat {
    Abs(x.a) + Abs(x.b)
  }

  /** Both notations stand for the same number. */
  ghost predicate SameValue(x: Num, y: Num) {
    forall q: Root :: IsRootThree(q) ==> Value(x, q) == Value(y, q)
  }

  /** Swapping the coefficients and dividing by three is one step of the exponent:
      3 a' + b sqrt 3 == (b + a' sqrt 3) * sqrt 3. */
  function Swapped(x: Num): Num {
    Num(x.b, x.a / 3, x.s + 1)
  }

  lemma SwapKeeps(x: Num)
    requires x.a % 3 == 0
    ensures SameValue(x, Swapped(x))
  {
    forall q: Root | IsRootThree(q) ensures Value(x, q) == Value(Swapped(x), q) {
      assert Step(q, x.s);
      SwapReals(x.a, x.a / 3, x.b, q.r, q.power(x.s), q.power(x.s + 1));
    }
  }

  lemma SwapReals(a: int, third: int, b: int, r: real, e: real, e1: real)
    requires a == 3 * third && r * r == 3.0 && e1 == r * e
    ensures Base(a, b, r) * e == Base(b, third, r) * e1
  {
    var t, y := third as real, b as real;
    assert a as real == 3.0 * t;
    assert (y + t * r) * r == y * r + t * (r * r);
    assert (3.0 * t + y * r) * e == ((y + t * r) * r) * e;
    Associate(y + t * r, r, e);
  }

  lemma Associate(u: real, v: real, w: real)
    ensures (u * v) * w == u * (v * w)
  {
  }

  lemma SwapShrinks(x: Num)
    requires x.a % 3 == 0 && x.a != 0
    ensures Size(Swapped(x)) < Size(x)
  {
  }

  function Third(x: Num): Num {
    Num(x.a / 3, x.b / 3, x.s + 2)
  }

  /** A common factor of three is two steps of the exponent. */
  lemma ThirdKeeps(x: Num)
    requires x.a % 3 == 0 && x.b % 3 == 0
    ensures SameValue(x, Third(x))
  {
    SwapKeeps(x);
    SwapKeeps(Swapped(x));
    assert Swapped(Swapped(x)) == Third(x);
    SameValueTrans(x, Swapped(x), Third(x));
  }

  lemma SameValueTrans(x: Num, y: Num, z: Num)
    requires SameValue(x, y) && SameValue(y, z)
    ensures SameValue(x, z)
  {
  }

  /** The number after `k` steps of the exponent. */
  function Swaps(x: Num, k: nat): Num {
    if k == 0 then x else Swapped(Swaps(x, k - 1))
  }

  predicate Reducible(x: Num) {
    x.a != 0 && x.a % 3 == 0 && (Abs(x.a) > 9 || Abs(x.b) > 9)
  }

  /** `n` is the first number on the way from `x` that is not to be reduced. */
  ghost predicate FirstIrreducible(x: Num, k: nat, n: Num) {
    n == Swaps(x, k) && !Reducible(n) && forall j :: 0 <= j < k ==> Reducible(Swaps(x, j))
  }

  /** Three divides a first coefficient that is not zero, and one of the two has more than nine in size. */
  lemma ReducibleIff(x: Num)
    ensures Reducible(x) <==> x.a != 0 && x.a % 3 == 0 && !(-9 <= x.a <= 9 && -9 <= x.b <= 9)
  {
  }

  method Shift3adic(x: Num) returns (n: Num)
    ensures SameValue(x, n) && Size(n) <= Size(x)
    ensures exists k: nat :: FirstIrreducible(x, k, n)
  {
    n := x;
    ghost var k: nat := 0;
    while n.a != 0 && n.a % 3 == 0 && (Abs(n.a) > 9 || Abs(n.b) > 9)
      invariant SameValue(x, n) && Size(n) <= Size(x)
      invariant n == Swaps(x, k) && forall j :: 0 <= j < k ==> Reducible(Swaps(x, j))
      decreases Size(n)
    {
      SwapKeeps(n);
      SwapShrinks(n);
      SameValueTrans(x, n, Swapped(n));
      n := Num(n.b, n.a / 3, n.s + 1);
      k := k + 1;
    }
    assert FirstIrreducible(x, k, n);
  }

  const OVERFLOW_THRESHOLD := 0x1_0000_0000_0000

  predicate FastPath(x: Num, stepCount: nat, stride: nat)
    requires stride > 0
  {
    Abs(x.a) < OVERFLOW_THRESHOLD && Abs(x.b) < OVERFLOW_THRESHOLD && stepCount % stride != 0
  }

  lemma FastPathIff(x: Num, stepCount: nat, stride: nat)
    requires stride > 0
    ensures FastPath(x, stepCount, stride) <==>
      -0x1_0000_0000_0000 < x.a < 0x1_0000_0000_0000 && -0x1_0000_0000_0000 < x.b < 0x1_0000_0000_0000 && stepCount % stride != 0
  {
  }

  /** `n` is `y` without its common factors of three, `m` of them. */
  ghost predicate WithoutThrees(y: Num, m: nat, n: Num) {
    && n == Swaps(y, 2 * m) && (n.a % 3 != 0 || n.b % 3 != 0 || (n.a == 0 && n.b == 0))
    && forall j :: 0 <= j < m ==> Swaps(y, 2 * j).a % 3 == 0 && Swaps(y, 2 * j).b % 3 == 0
  }

  /** Normalisation keeps the number and never makes its coefficients larger; off the fast
      path it goes to the first number not to be reduced and takes out its common factors of
      three, and what it leaves is still not to be reduced. */
  method NormalizePeriodic(x: Num, stepCount: nat, stride: nat) returns (n: Num)
    requires stride > 0
    ensures SameValue(x, n) && Size(n) <= Size(x)
    ensures FastPath(x, stepCount, stride) ==> n == x
    ensures !FastPath(x, stepCount, stride) ==> !Reducible(n)
    ensures !FastPath(x, stepCount, stride) ==>
      exists y: Num, k: nat, m: nat :: FirstIrreducible(x, k, y) && WithoutThrees(y, m, n)
  {
    if FastPath(x, stepCount, stride) {
      return x;
    }
    n := Shift3adic(x);
    ghost var y := n;
    ghost var k: nat :| FirstIrreducible(x, k, y);
    ghost var m: nat := 0;
    var g := Gcd.FastBinaryGcd(n.a, n.b);
    ThreeDividesIff(n, g);
    if g > 1 && g % 3 == 0 {
      while g % 3 == 0
        invariant g > 0 && g == Gcd.Euclid(Abs(n.a), Abs(n.b))
        invariant SameValue(x, n) && Size(n) <= Size(x) && !Reducible(n)
        invariant n == Swaps(y, 2 * m)
        invariant forall j :: 0 <= j < m ==> Swaps(y, 2 * j).a % 3 == 0 && Swaps(y, 2 * j).b % 3 == 0
        decreases g
      {
        ThreeDividesIff(n, g);
        ThirdOfDivisor(n, g);
        ThirdKeeps(n);
        SameValueTrans(x, n, Third(n));
        TwoSwaps(y, m, n);
        n := Num(n.a / 3, n.b / 3, n.s + 2);
        g := g / 3;
        m := m + 1;
      }
      ThreeDividesIff(n, g);
    }
    assert WithoutThrees(y, m, n);
  }

  lemma TwoSwaps(y: Num, m: nat, n: Num)
    requires n == Swaps(y, 2 * m)
    ensures Swaps(y, 2 * (m + 1)) == Third(n)
  {
    assert Swaps(y, 2 * m + 1) == Swapped(n);
  }

  /** Three divides the greatest common divisor exactly when it divides both coefficients. */
  lemma ThreeDividesIff(x: Num, g: nat)
    requires g == Gcd.Euclid(Abs(x.a), Abs(x.b))
    ensures g % 3 == 0 <==> x.a % 3 == 0 && x.b % 3 == 0
    ensures g == 0 <==> x.a == 0 && x.b == 0
  {
    var u, v := Abs(x.a), Abs(x.b);
    AbsThree(x.a);
    AbsThree(x.b);
    ThreeDividesBoth(u, v, g);
  }

  lemma AbsThree(n: int)
    ensures Abs(n) % 3 == 0 <==> n % 3 == 0
    ensures Abs(n) == 0 <==> n == 0
  {
  }

  lemma ThreeDividesBoth(u: nat, v: nat, g: nat)
    requires g == Gcd.Euclid(u, v)
    ensures g % 3 == 0 <==> u % 3 == 0 && v % 3 == 0
    ensures g == 0 <==> u == 0 && v == 0
  {
    Gcd.EuclidIsGreatest(u, v, 3);
    DividesThree(u);
    DividesThree(v);
    DividesThree(g);
    MultipleOfMultiple(g, u);
    MultipleOfMultiple(g, v);
  }

  lemma DividesThree(n: nat)
    ensures Gcd.Divides(3, n) <==> n % 3 == 0
  {
    if n % 3 == 0 {
      assert Gcd.Multiple(n, 3, n / 3);
    }
    if Gcd.Divides(3, n) {
      var k: nat :| Gcd.Multiple(n, 3, k);
    }
  }

  lemma MultipleOfMultiple(g: nat, n: nat)
    requires Gcd.Divides(g, n)
    ensures g % 3 == 0 ==> n % 3 == 0
    ensures g == 0 ==> n == 0
  {
    var k: nat :| Gcd.Multiple(n, g, k);
    var h := g / 3;
    if g % 3 == 0 {
      assert k * g == 3 * (k * h);
    }
  }

  lemma ThirdOfDivisor(x: Num, g: nat)
    requires g == Gcd.Euclid(Abs(x.a), Abs(x.b)) && x.a % 3 == 0 && x.b % 3 == 0
    ensures Gcd.Euclid(Abs(x.a / 3), Abs(x.b / 3)) == g / 3
  {
    Gcd.EuclidScale(3, Abs(x.a / 3), Abs(x.b / 3));
    assert Abs(x.a) == 3 * Abs(x.a / 3) && Abs(x.b) == 3 * Abs(x.b / 3);
  }
}
