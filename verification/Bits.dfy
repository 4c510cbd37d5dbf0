/**
 Bitwise operators on unbounded integers, negative ones in infinite two's
 complement, with the meaning of each given bit by bit.
 */
module Bits {
  /** Bit `i`; halving rounds down, so negative numbers end in an endless run of ones. */
  predicate Bit(x: int, i: nat)
    decreases i
  {
    if i == 0 then x % 2 == 1 else Bit(x / 2, i - 1)
  }

  function Abs(x: int): nat {
    if x < 0 then -x else x
  }

  function And(x: int, y: int): (z: int)
    ensures x >= 0 || y >= 0 ==> z >= 0
    decreases Abs(x)
  {
    if x == 0 || y == 0 then 0
    else if x == -1 then y
    else if y == -1 then x
    else 2 * And(x / 2, y / 2) + if x % 2 == 1 && y % 2 == 1 then 1 else 0
  }

  function Or(x: nat, y: nat): nat
    decreases x
  {
    if x == 0 then y
    else 2 * Or(x / 2, y / 2) + if x % 2 == 1 || y % 2 == 1 then 1 else 0
  }

  function Xor(x: nat, y: nat): nat
    decreases x
  {
    if x == 0 then y
    else 2 * Xor(x / 2, y / 2) + if x % 2 != y % 2 then 1 else 0
  }

  function Pow2(n: nat): (p: nat)
    ensures p >= 1
    decreases n
  {
    if n == 0 then 1 else 2 * Pow2(n - 1)
  }

  lemma {:induction false} ZeroBits(i: nat)
    ensures !Bit(0, i)
    decreases i
  {
    if i > 0 {
      ZeroBits(i - 1);
    }
  }

  lemma {:induction false} MinusOneBits(i: nat)
    ensures Bit(-1, i)
    decreases i
  {
    if i > 0 {
      assert -1 / 2 == -1;
      MinusOneBits(i - 1);
    }
  }

  lemma Halve(x: int, b: int)
    requires b == 0 || b == 1
    ensures (2 * x + b) / 2 == x && (2 * x + b) % 2 == b
  {
  }

  lemma {:induction false} AndBits(x: int, y: int, i: nat)
    ensures Bit(And(x, y), i) <==> Bit(x, i) && Bit(y, i)
    decreases i
  {
    ZeroBits(i);
    MinusOneBits(i);
    if x != 0 && y != 0 && x != -1 && y != -1 {
      Halve(And(x / 2, y / 2), if x % 2 == 1 && y % 2 == 1 then 1 else 0);
      if i > 0 {
        AndBits(x / 2, y / 2, i - 1);
      }
    }
  }

  lemma {:induction false} OrBits(x: nat, y: nat, i: nat)
    ensures Bit(Or(x, y), i) <==> Bit(x, i) || Bit(y, i)
    decreases i
  {
    ZeroBits(i);
    if x != 0 {
      Halve(Or(x / 2, y / 2), if x % 2 == 1 || y % 2 == 1 then 1 else 0);
      if i > 0 {
        OrBits(x / 2, y / 2, i - 1);
      }
    }
  }

  lemma {:induction false} XorBits(x: nat, y: nat, i: nat)
    ensures Bit(Xor(x, y), i) <==> Bit(x, i) != Bit(y, i)
    decreases i
  {
    ZeroBits(i);
    if x != 0 {
      Halve(Xor(x / 2, y / 2), if x % 2 != y % 2 then 1 else 0);
      if i > 0 {
        XorBits(x / 2, y / 2, i - 1);
      }
    }
  }

  lemma {:induction false} PowBits(n: nat, i: nat)
    ensures Bit(Pow2(n), i) <==> i == n
    decreases n
  {
    if n == 0 {
      if i > 0 {
        ZeroBits(i - 1);
      }
    } else {
      Halve(Pow2(n - 1), 0);
      if i > 0 {
        PowBits(n - 1, i - 1);
      }
    }
  }

  /** `(1 << n) - 1` has exactly the bits below `n`. */
  lemma {:induction false} MaskBits(n: nat, i: nat)
    ensures Bit(Pow2(n) - 1, i) <==> i < n
    decreases n
  {
    if n == 0 {
      ZeroBits(i);
    } else {
      assert Pow2(n) - 1 == 2 * (Pow2(n - 1) - 1) + 1;
      Halve(Pow2(n - 1) - 1, 1);
      if i > 0 {
        MaskBits(n - 1, i - 1);
      }
    }
  }

  lemma ShiftLeftBits(x: int, i: nat)
    ensures Bit(2 * x, i) <==> i > 0 && Bit(x, i - 1)
  {
    Halve(x, 0);
  }

  lemma {:induction false} AndComplement(h: int)
    requires h >= 0
    ensures And(h, -h - 1) == 0
    decreases h
  {
    if h > 0 {
      assert (-h - 1) / 2 == -(h / 2) - 1;
      assert h % 2 == 1 ==> (-h - 1) % 2 == 0;
      AndComplement(h / 2);
    }
  }

  /** `x & -x` isolates the lowest set bit. */
  lemma {:induction false} LowestBit(x: int) returns (j: nat)
    requires x > 0
    ensures And(x, -x) == Pow2(j) && Bit(x, j)
    decreases x
  {
    if x % 2 == 1 {
      j := 0;
      assert (-x) / 2 == -(x / 2) - 1;
      AndComplement(x / 2);
    } else {
      var h := x / 2;
      assert (-x) / 2 == -h && (-x) % 2 == 0;
      var k := LowestBit(h);
      j := k + 1;
    }
  }

  /** Clearing a set bit by exclusive or makes the number smaller. */
  lemma {:induction false} XorClears(x: nat, j: nat)
    requires Bit(x, j)
    ensures Xor(x, Pow2(j)) < x
    decreases j
  {
    ZeroBits(j);
    if j == 0 {
      XorZero(x / 2);
    } else {
      Halve(Pow2(j - 1), 0);
      XorClears(x / 2, j - 1);
    }
  }

  lemma {:induction false} XorZero(x: nat)
    ensures Xor(x, 0) == x
    decreases x
  {
    if x > 0 {
      XorZero(x / 2);
    }
  }

  /** A natural number is zero only when it has no bits. */
  lemma {:induction false} SomeBit(x: nat) returns (i: nat)
    requires x > 0
    ensures Bit(x, i)
    decreases x
  {
    if x % 2 == 1 {
      i := 0;
    } else {
      var k := SomeBit(x / 2);
      i := k + 1;
    }
  }
}
