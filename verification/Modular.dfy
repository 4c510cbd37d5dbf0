/** Positions of a ring: tickets that share a cell are a whole number of rounds apart. */
module Modular {
  lemma SameCell(a: nat, b: nat, cap: nat)
    requires cap >= 1 && a % cap == b % cap && a < b
    ensures a + cap <= b
  {
    var qa, qb, r := a / cap, b / cap, a % cap;
    assert a == cap * qa + r && b == cap * qb + r;
    assert cap * (qb - qa) > 0;
    Rounds(qb - qa, cap);
  }

  lemma Rounds(k: int, cap: nat)
    requires cap >= 1 && cap * k > 0
    ensures cap * k >= cap
  {
    assert k >= 1;
  }

  /** Quotient and remainder are determined by the division equation. */
  lemma ModUnique(x: int, cap: nat, q: int, r: int)
    requires cap >= 1 && x == cap * q + r && 0 <= r < cap
    ensures x / cap == q && x % cap == r
  {
    var d := x / cap - q;
    assert cap * d == r - x % cap;
    if d > 0 {
      Rounds(d, cap);
    } else if d < 0 {
      assert cap * -d == x % cap - r;
      Rounds(-d, cap);
    }
  }

  lemma NextRound(a: nat, cap: nat)
    requires cap >= 1
    ensures (a + cap) % cap == a % cap
  {
    var q := a / cap;
    assert a + cap == cap * (q + 1) + a % cap;
    ModUnique(a + cap, cap, q + 1, a % cap);
  }

  lemma PreviousRound(a: nat, cap: nat)
    requires cap >= 1 && a >= cap
    ensures (a - cap) % cap == a % cap
  {
    NextRound(a - cap, cap);
  }

  /** With at least two cells, neighbouring tickets never share one. */
  lemma NeighboursDiffer(a: nat, cap: nat)
    requires cap >= 2
    ensures (a + 1) % cap != a % cap
  {
    if (a + 1) % cap == a % cap {
      SameCell(a, a + 1, cap);
    }
  }

  lemma SmallMod(a: nat, cap: nat)
    requires a < cap
    ensures a % cap == a
  {
  }
}
