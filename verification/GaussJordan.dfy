/**
 Gauss-Jordan elimination over Q(sqrt 3), in place on an augmented matrix.
 Every row operation keeps the set of vectors that all rows annihilate, so the
 answer is right for the system that was passed in.
 */
module GaussJordan {
  import opened Field

  type Row = seq<Elem>
  type Matrix = seq<Row>

  datatype Outcome =
    | Solution(x: Row)
    | MissingPivot       // no row left with a non-zero entry in the column
    | IsotropicPivot     // a division reported a zero norm

  /** The inner product of the first `k` entries. */
  function Dot(u: Row, y: Row, k: nat): Elem
    requires k <= |u| && k <= |y|
    decreases k
  {
    if k == 0 then ZERO else Add(Dot(u, y, k - 1), Mul(u[k - 1], y[k - 1]))
  }

  /** `n` augmented rows of `n + 1` entries. */
  predicate Shaped(m: Matrix, n: nat) {
    |m| == n && forall r :: 0 <= r < n ==> |m[r]| == n + 1
  }

  predicate Annihilates(m: Matrix, n: nat, y: Row)
    requires Shaped(m, n)
  {
    |y| == n + 1 && forall r :: 0 <= r < n ==> Dot(m[r], y, n + 1) == ZERO
  }

  /** The two matrices have the same null space. */
  ghost predicate SameNull(m: Matrix, w: Matrix, n: nat)
    requires Shaped(m, n) && Shaped(w, n)
  {
    forall y: Row {:trigger Annihilates(m, n, y)} {:trigger Annihilates(w, n, y)} ::
      Annihilates(m, n, y) <==> Annihilates(w, n, y)
  }

  ghost predicate RowInField(u: Row) {
    forall c :: 0 <= c < |u| ==> InField(u[c])
  }

  ghost predicate AllInField(m: Matrix) {
    forall r :: 0 <= r < |m| ==> RowInField(m[r])
  }

  function Unit(r: nat, c: nat): Elem {
    if r == c then ONE else ZERO
  }

  /** The first `col` columns are those of the identity. */
  predicate Reduced(m: Matrix, n: nat, col: nat)
    requires Shaped(m, n) && col <= n
  {
    forall r, c :: 0 <= r < n && 0 <= c < col ==> m[r][c] == Unit(r, c)
  }

  // ------------------------------------------------------- linear equations

  predicate System(a: Matrix, b: Row) {
    |a| == |b| && forall r :: 0 <= r < |a| ==> |a[r]| == |a|
  }

  predicate Solves(a: Matrix, b: Row, z: Row)
    requires System(a, b)
  {
    |z| == |a| && forall r :: 0 <= r < |a| ==> Dot(a[r], z, |a|) == b[r]
  }

  function Zeros(n: nat): Row {
    seq(n, _ => ZERO)
  }

  /** `x` is the one and only solution, also among vectors with irrational coefficients. */
  ghost predicate OnlySolution(a: Matrix, b: Row, x: Row)
    requires System(a, b)
  {
    forall z: Row :: Solves(a, b, z) <==> z == x
  }

  ghost predicate Singular(a: Matrix)
    requires System(a, Zeros(|a|))
  {
    exists k: Row :: RowInField(k) && k != Zeros(|a|) && Solves(a, Zeros(|a|), k)
  }

  function Augmented(a: Matrix, b: Row): (m: Matrix)
    requires System(a, b)
    ensures Shaped(m, |a|)
  {
    seq(|a|, r requires 0 <= r < |a| => a[r] + [b[r]])
  }

  // ------------------------------------------------------ row combinations

  lemma {:induction false} DotCombination(u: Row, v: Row, w: Row, f: Elem, y: Row, k: nat)
    requires k <= |u| && k <= |v| && k <= |w| && k <= |y|
    requires forall c :: 0 <= c < k ==> w[c] == Sub(u[c], Mul(f, v[c]))
    ensures Dot(w, y, k) == Sub(Dot(u, y, k), Mul(f, Dot(v, y, k)))
    decreases k
  {
    if k > 0 {
      DotCombination(u, v, w, f, y, k - 1);
      CombinationStep(Dot(u, y, k - 1), Dot(v, y, k - 1), u[k - 1], v[k - 1], f, y[k - 1]);
    }
  }

  lemma CombinationStep(s: Elem, t: Elem, u: Elem, v: Elem, f: Elem, y: Elem)
    ensures Add(Sub(s, Mul(f, t)), Mul(Sub(u, Mul(f, v)), y)) == Sub(Add(s, Mul(u, y)), Mul(f, Add(t, Mul(v, y))))
  {
  }

  lemma {:induction false} DotMultiple(u: Row, w: Row, p: Elem, y: Row, k: nat)
    requires k <= |u| && k <= |w| && k <= |y|
    requires forall c :: 0 <= c < k ==> Mul(p, w[c]) == u[c]
    ensures Mul(p, Dot(w, y, k)) == Dot(u, y, k)
    decreases k
  {
    if k > 0 {
      DotMultiple(u, w, p, y, k - 1);
      MultipleStep(Dot(w, y, k - 1), w[k - 1], p, y[k - 1]);
    }
  }

  lemma MultipleStep(s: Elem, w: Elem, p: Elem, y: Elem)
    ensures Mul(p, Add(s, Mul(w, y))) == Add(Mul(p, s), Mul(Mul(p, w), y))
  {
    Distributes(p, s, Mul(w, y));
    Associates(p, w, y);
  }

  lemma Distributes(p: Elem, x: Elem, y: Elem)
    ensures Mul(p, Add(x, y)) == Add(Mul(p, x), Mul(p, y))
  {
  }

  lemma Associates(p: Elem, w: Elem, y: Elem)
    ensures Mul(p, Mul(w, y)) == Mul(Mul(p, w), y)
  {
    Triple(p.a, w.a, y.a);
    Triple(p.a, w.b, y.b);
    Triple(p.b, w.a, y.b);
    Triple(p.b, w.b, y.a);
    Triple(p.a, w.a, y.b);
    Triple(p.a, w.b, y.a);
    Triple(p.b, w.a, y.a);
    Triple(p.b, w.b, y.b);
  }

  lemma Triple(x: real, y: real, z: real)
    ensures x * (y * z) == (x * y) * z
  {
  }

  lemma {:induction false} DotPrefix(u: Row, v: Row, y: Row, z: Row, k: nat)
    requires k <= |u| && k <= |v| && k <= |y| && k <= |z|
    requires forall c :: 0 <= c < k ==> u[c] == v[c] && y[c] == z[c]
    ensures Dot(u, y, k) == Dot(v, z, k)
    decreases k
  {
    if k > 0 {
      DotPrefix(u, v, y, z, k - 1);
    }
  }

  /** An inner product to which only positions `i` and `j` contribute. */
  lemma {:induction false} DotPair(u: Row, y: Row, i: nat, j: nat, k: nat)
    requires i < j < |u| && j < |y| && k <= |u| && k <= |y|
    requires forall c :: 0 <= c < k && c != i && c != j ==> u[c] == ZERO || y[c] == ZERO
    ensures Dot(u, y, k) ==
            Add(if i < k then Mul(u[i], y[i]) else ZERO, if j < k then Mul(u[j], y[j]) else ZERO)
    decreases k
  {
    if k > 0 {
      DotPair(u, y, i, j, k - 1);
    }
  }

  lemma SwapKeeps(m: Matrix, n: nat, i: nat, j: nat)
    requires Shaped(m, n) && i < n && j < n
    ensures var w := m[i := m[j]][j := m[i]]; Shaped(w, n) && SameNull(m, w, n)
  {
    var w := m[i := m[j]][j := m[i]];
    forall y: Row ensures Annihilates(m, n, y) <==> Annihilates(w, n, y) {
      if |y| == n + 1 {
        assert w[i] == m[j] && w[j] == m[i] && forall r :: 0 <= r < n && r != i && r != j ==> w[r] == m[r];
      }
    }
  }

  /** Changing one row keeps the null space if, wherever the other rows vanish,
      the old and the new row vanish together. */
  lemma OneRowKeeps(m: Matrix, w: Matrix, n: nat, r: nat, y: Row)
    requires Shaped(m, n) && Shaped(w, n) && r < n && w == m[r := w[r]] && |y| == n + 1
    requires (forall k :: 0 <= k < n && k != r ==> Dot(m[k], y, n + 1) == ZERO) ==>
               (Dot(m[r], y, n + 1) == ZERO <==> Dot(w[r], y, n + 1) == ZERO)
    ensures Annihilates(m, n, y) <==> Annihilates(w, n, y)
  {
    assert forall k :: 0 <= k < n && k != r ==> m[k] == w[k];
  }

  lemma DivideKeeps(m: Matrix, w: Matrix, n: nat, r: nat, p: Elem)
    requires Shaped(m, n) && Shaped(w, n) && r < n && w == m[r := w[r]] && Norm(p) != 0.0
    requires forall c :: 0 <= c <= n ==> Mul(p, w[r][c]) == m[r][c]
    ensures SameNull(m, w, n)
  {
    forall y: Row ensures Annihilates(m, n, y) <==> Annihilates(w, n, y) {
      if |y| == n + 1 {
        DotMultiple(m[r], w[r], p, y, n + 1);
        var d := Dot(w[r], y, n + 1);
        assert Mul(p, ZERO) == ZERO;
        if Mul(p, d) == ZERO {
          NoZeroDivisor(p, d);
        }
        OneRowKeeps(m, w, n, r, y);
      }
    }
  }

  lemma EliminateKeeps(m: Matrix, w: Matrix, n: nat, r: nat, col: nat, f: Elem)
    requires Shaped(m, n) && Shaped(w, n) && r < n && col < n && r != col && w == m[r := w[r]]
    requires forall c :: 0 <= c <= n ==> w[r][c] == Sub(m[r][c], Mul(f, m[col][c]))
    ensures SameNull(m, w, n)
  {
    forall y: Row ensures Annihilates(m, n, y) <==> Annihilates(w, n, y) {
      if |y| == n + 1 {
        DotCombination(m[r], m[col], w[r], f, y, n + 1);
        OneRowKeeps(m, w, n, r, y);
      }
    }
  }

  lemma SameNullTrans(m: Matrix, w: Matrix, v: Matrix, n: nat)
    requires Shaped(m, n) && Shaped(w, n) && Shaped(v, n) && SameNull(m, w, n) && SameNull(w, v, n)
    ensures SameNull(m, v, n)
  {
    forall y: Row ensures Annihilates(m, n, y) <==> Annihilates(v, n, y) {
      assert Annihilates(m, n, y) <==> Annihilates(w, n, y);
    }
  }

  // ---------------------------------------------------------- the answers

  /** The augmented matrix annihilates (z, t) exactly when every row gives A z + t b = 0. */
  lemma AugmentedRow(a: Matrix, b: Row, z: Row, t: Elem, r: nat)
    requires System(a, b) && |z| == |a| && r < |a|
    ensures Dot(Augmented(a, b)[r], z + [t], |a| + 1) == Add(Dot(a[r], z, |a|), Mul(b[r], t))
  {
    DotPrefix(Augmented(a, b)[r], a[r], z + [t], z, |a|);
  }

  const MINUS_ONE := Elem(-1.0, 0.0)

  lemma SolutionsAnnihilate(a: Matrix, b: Row, z: Row)
    requires System(a, b) && |z| == |a|
    ensures Solves(a, b, z) <==> Annihilates(Augmented(a, b), |a|, z + [MINUS_ONE])
  {
    forall r | 0 <= r < |a|
      ensures Dot(Augmented(a, b)[r], z + [MINUS_ONE], |a| + 1) == Sub(Dot(a[r], z, |a|), b[r])
    {
      AugmentedRow(a, b, z, MINUS_ONE, r);
    }
  }

  lemma KernelRow(a: Matrix, b: Row, z: Row, r: nat)
    requires System(a, b) && |z| == |a| && r < |a|
    ensures Dot(Augmented(a, b)[r], z + [ZERO], |a| + 1) == Dot(a[r], z, |a|)
  {
    AugmentedRow(a, b, z, ZERO, r);
    AddNothing(Dot(a[r], z, |a|), b[r]);
  }

  lemma AddNothing(s: Elem, x: Elem)
    ensures Add(s, Mul(x, ZERO)) == s
  {
  }

  lemma KernelAnnihilates(a: Matrix, b: Row, z: Row)
    requires System(a, b) && |z| == |a|
    ensures Solves(a, Zeros(|a|), z) <==> Annihilates(Augmented(a, b), |a|, z + [ZERO])
  {
    var m, n, y := Augmented(a, b), |a|, z + [ZERO];
    forall r | 0 <= r < n ensures Dot(m[r], y, n + 1) == Dot(a[r], z, n) && Zeros(n)[r] == ZERO {
      KernelRow(a, b, z, r);
    }
  }

  /** A fully reduced matrix has its solution in the last column. */
  lemma LastColumnSolves(m: Matrix, n: nat, x: Row, z: Row)
    requires Shaped(m, n) && Reduced(m, n, n) && |x| == n && |z| == n
    requires forall r :: 0 <= r < n ==> x[r] == m[r][n]
    ensures Annihilates(m, n, z + [MINUS_ONE]) <==> z == x
  {
    forall r | 0 <= r < n ensures Dot(m[r], z + [MINUS_ONE], n + 1) == Sub(z[r], x[r]) {
      DotPair(m[r], z + [MINUS_ONE], r, n, n + 1);
    }
    forall r | 0 <= r < n ensures Sub(z[r], x[r]) == ZERO <==> z[r] == x[r] {
    }
  }

  /** Without a pivot in column `col`, that column is a combination of the earlier ones. */
  function Dependency(m: Matrix, n: nat, col: nat): (k: Row)
    requires Shaped(m, n) && col < n
    ensures |k| == n && k[col] == ONE
  {
    seq(n, c requires 0 <= c < n => if c < col then Sub(ZERO, m[c][col]) else if c == col then ONE else ZERO)
  }

  lemma DependencyAnnihilates(m: Matrix, n: nat, col: nat)
    requires Shaped(m, n) && col < n && Reduced(m, n, col)
    requires forall r :: col <= r < n ==> m[r][col] == ZERO
    ensures Annihilates(m, n, Dependency(m, n, col) + [ZERO])
  {
    var y := Dependency(m, n, col) + [ZERO];
    assert y[n] == ZERO && y[col] == ONE;
    assert forall c :: col < c <= n ==> y[c] == ZERO;
    forall r | 0 <= r < n ensures Dot(m[r], y, n + 1) == ZERO {
      if r < col {
        assert y[r] == Sub(ZERO, m[r][col]) && m[r][r] == Unit(r, r);
        UnitRowCancels(m[r], y, r, col, n);
      } else {
        ZeroRowCancels(m[r], y, col, n);
      }
    }
  }

  lemma UnitRowCancels(u: Row, y: Row, r: nat, col: nat, n: nat)
    requires r < col < n && |u| == n + 1 && |y| == n + 1
    requires forall c :: 0 <= c < col && c != r ==> u[c] == ZERO
    requires forall c :: col < c <= n ==> y[c] == ZERO
    requires u[r] == ONE && y[r] == Sub(ZERO, u[col]) && y[col] == ONE
    ensures Dot(u, y, n + 1) == ZERO
  {
    DotPair(u, y, r, col, n + 1);
  }

  lemma ZeroRowCancels(u: Row, y: Row, col: nat, n: nat)
    requires col < n && |u| == n + 1 && |y| == n + 1
    requires forall c :: 0 <= c <= col ==> u[c] == ZERO
    requires forall c :: col < c <= n ==> y[c] == ZERO
    ensures Dot(u, y, n + 1) == ZERO
  {
    DotPair(u, y, col, n, n + 1);
  }

  lemma DependencyInField(m: Matrix, n: nat, col: nat)
    requires Shaped(m, n) && col < n && AllInField(m)
    ensures RowInField(Dependency(m, n, col))
  {
    IntRational(0);
    IntRational(1);
    assert InField(ZERO) && InField(ONE);
    forall c | 0 <= c < n ensures InField(Dependency(m, n, col)[c]) {
      if c < col {
        assert RowInField(m[c]);
        FieldClosed(ZERO, m[c][col]);
      }
    }
  }

  /** A system with exactly one solution has no singular matrix. */
  lemma OnlySolutionIsRegular(a: Matrix, b: Row, x: Row)
    requires System(a, b) && OnlySolution(a, b, x)
    ensures !Singular(a)
  {
    assert Solves(a, b, x);
    forall k: Row | Solves(a, Zeros(|a|), k) ensures k == Zeros(|a|) {
      var n := |a|;
      var z := seq(n, c requires 0 <= c < n => Sub(x[c], k[c]));
      forall r | 0 <= r < n ensures Dot(a[r], z, n) == b[r] {
        DotOther(a[r], x, k, z, n);
      }
      assert Solves(a, b, z);
      forall c | 0 <= c < n ensures k[c] == ZERO {
        assert z[c] == x[c];
      }
    }
  }

  lemma {:induction false} DotOther(u: Row, x: Row, y: Row, z: Row, k: nat)
    requires k <= |u| && k <= |x| && k <= |y| && k <= |z|
    requires forall c :: 0 <= c < k ==> z[c] == Sub(x[c], y[c])
    ensures Dot(u, z, k) == Sub(Dot(u, x, k), Dot(u, y, k))
    decreases k
  {
    if k > 0 {
      DotOther(u, x, y, z, k - 1);
      DifferenceStep(Dot(u, x, k - 1), Dot(u, y, k - 1), u[k - 1], x[k - 1], y[k - 1]);
    }
  }

  lemma DifferenceStep(s: Elem, t: Elem, u: Elem, x: Elem, y: Elem)
    ensures Add(Sub(s, t), Mul(u, Sub(x, y))) == Sub(Add(s, Mul(u, x)), Add(t, Mul(u, y)))
  {
  }

  // ------------------------------------------------------------ the program

  /** The first row from `col` down with a non-zero entry in the column, or `n`. */
  method FindPivot(m: array<Row>, n: nat, col: nat) returns (p: nat)
    requires col < n && Shaped(m[..], n)
    ensures col <= p <= n
    ensures forall r :: col <= r < p ==> m[r][col] == ZERO
    ensures p < n ==> m[p][col] != ZERO
  {
    p := col;
    while p < n && m[p][col].a == 0.0 && m[p][col].b == 0.0
      invariant col <= p <= n
      invariant forall r :: col <= r < p ==> m[r][col] == ZERO
    {
      assert m[..][p] == m[p];
      p := p + 1;
    }
  }

  /** From column `col` on, `now` is the row `was` divided by its pivot. */
  predicate Divided(was: Row, now: Row, n: nat, col: nat)
    requires |was| == n + 1 && |now| == n + 1 && col < n && Norm(was[col]) != 0.0
  {
    forall c :: 0 <= c <= n ==> now[c] == if c < col then was[c] else Div(was[c], was[col])
  }

  /** Divides row `col` by its pivot from column `col` on; false when the division throws. */
  method DivideRow(m: array<Row>, n: nat, col: nat) returns (ok: bool)
    requires col < n && Shaped(m[..], n)
    modifies m
    ensures ok <==> Norm(old(m[col][col])) != 0.0
    ensures m[..] == old(m[..])[col := m[col]] && |m[col]| == n + 1
    ensures ok ==> Divided(old(m[col]), m[col], n, col)
  {
    assert m[..][col] == m[col];
    var pivot := m[col][col];
    ghost var was := m[col];
    var c := col;
    while c <= n
      invariant col <= c <= n + 1
      invariant m[..] == old(m[..])[col := m[col]] && |m[col]| == n + 1
      invariant col < c ==> Norm(pivot) != 0.0
      invariant forall k :: 0 <= k <= n ==> m[col][k] == if col <= k < c then Div(was[k], pivot) else was[k]
    {
      if Norm(pivot) == 0.0 {
        return false;
      }
      m[col] := m[col][c := Div(m[col][c], pivot)];
      c := c + 1;
    }
    return true;
  }

  /** From column `col` on, `now` is `was` less the multiple of `row` that clears the column. */
  predicate Subtracted(was: Row, row: Row, now: Row, n: nat, col: nat)
    requires |was| == n + 1 && |row| == n + 1 && |now| == n + 1 && col < n
  {
    forall c :: 0 <= c <= n ==> now[c] == if c < col then was[c] else Sub(was[c], Mul(was[col], row[c]))
  }

  /** Subtracts `factor` times row `col` from row `r`, from column `col` on. */
  method SubtractRow(m: array<Row>, n: nat, col: nat, r: nat)
    requires col < n && r < n && r != col && Shaped(m[..], n)
    modifies m
    ensures m[..] == old(m[..])[r := m[r]] && |m[r]| == n + 1
    ensures Subtracted(old(m[r]), old(m[col]), m[r], n, col)
  {
    assert m[..][col] == m[col] && m[..][r] == m[r];
    var factor := m[r][col];
    ghost var was, row := m[r], m[col];
    var c := col;
    while c <= n
      invariant col <= c <= n + 1
      invariant m[..] == old(m[..])[r := m[r]] && |m[r]| == n + 1 && m[col] == row
      invariant forall k :: 0 <= k <= n ==>
        m[r][k] == if col <= k < c then Sub(was[k], Mul(factor, row[k])) else was[k]
    {
      m[r] := m[r][c := Sub(m[r][c], Mul(factor, m[col][c]))];
      c := c + 1;
    }
  }

  /** The matrix is still one of field elements with the original null space. */
  ghost predicate Faithful(m: Matrix, original: Matrix, n: nat) {
    Shaped(m, n) && Shaped(original, n) && AllInField(m) && SameNull(original, m, n)
  }

  lemma SwapStep(m: Matrix, original: Matrix, n: nat, col: nat, p: nat)
    requires col <= p < n && Faithful(m, original, n) && Reduced(m, n, col)
    ensures var w := m[col := m[p]][p := m[col]]; Faithful(w, original, n) && Reduced(w, n, col)
  {
    SwapKeeps(m, n, col, p);
    SameNullTrans(original, m, m[col := m[p]][p := m[col]], n);
  }

  lemma DivideStep(m: Matrix, w: Matrix, original: Matrix, n: nat, col: nat)
    requires col < n && Faithful(m, original, n) && Reduced(m, n, col) && m[col][col] != ZERO
    requires |w| == n && w == m[col := w[col]] && |w[col]| == n + 1 && Norm(m[col][col]) != 0.0
    requires Divided(m[col], w[col], n, col)
    ensures Faithful(w, original, n) && Reduced(w, n, col) && w[col][col] == ONE
  {
    var p := m[col][col];
    assert RowInField(m[col]);
    forall c | 0 <= c <= n ensures InField(w[col][c]) && Mul(p, w[col][c]) == m[col][c] {
      if c >= col {
        QuotientInField(m[col][c], p);
      }
    }
    DivideKeeps(m, w, n, col, p);
    SameNullTrans(original, m, w, n);
    PivotBecomesOne(p, w[col][col]);
  }

  lemma PivotBecomesOne(p: Elem, q: Elem)
    requires Norm(p) != 0.0 && Mul(p, q) == p
    ensures q == ONE
  {
    var d := Sub(q, ONE);
    assert Mul(p, d) == Sub(Mul(p, q), p);
    NoZeroDivisor(p, d);
  }

  lemma EliminateStep(m: Matrix, w: Matrix, original: Matrix, n: nat, col: nat, r: nat)
    requires col < n && r < n && r != col && Faithful(m, original, n) && Reduced(m, n, col) && m[col][col] == ONE
    requires |w| == n && w == m[r := w[r]] && |w[r]| == n + 1
    requires Subtracted(m[r], m[col], w[r], n, col)
    ensures Faithful(w, original, n) && Reduced(w, n, col) && w[r][col] == ZERO
  {
    var f := m[r][col];
    assert RowInField(m[r]) && RowInField(m[col]);
    forall c | 0 <= c <= n ensures InField(w[r][c]) && w[r][c] == Sub(m[r][c], Mul(f, m[col][c])) {
      FieldClosed(f, m[col][c]);
      FieldClosed(m[r][c], Mul(f, m[col][c]));
    }
    EliminateKeeps(m, w, n, r, col, f);
    SameNullTrans(original, m, w, n);
  }

  /** Clears column `col` in every row but its own. */
  method EliminateColumn(m: array<Row>, n: nat, col: nat, ghost original: Matrix)
    requires col < n && Faithful(m[..], original, n) && Reduced(m[..], n, col) && m[..][col][col] == ONE
    modifies m
    ensures Faithful(m[..], original, n) && Reduced(m[..], n, col + 1)
  {
    var r := 0;
    while r < n
      invariant 0 <= r <= n
      invariant Faithful(m[..], original, n) && Reduced(m[..], n, col) && m[..][col][col] == ONE
      invariant forall k :: 0 <= k < r && k != col ==> m[..][k][col] == ZERO
    {
      if r != col && (m[r][col].a != 0.0 || m[r][col].b != 0.0) {
        ghost var was := m[..];
        SubtractRow(m, n, col, r);
        EliminateStep(was, m[..], original, n, col, r);
      }
      r := r + 1;
    }
  }

  /** Solves `a x = b`.  A returned vector is the only solution; a missing pivot means the
      matrix is singular; and no division ever fails. */
  method Solve(a: Matrix, b: Row) returns (out: Outcome)
    requires System(a, b) && AllInField(a) && RowInField(b)
    ensures out.Solution? ==> RowInField(out.x) && OnlySolution(a, b, out.x)
    ensures out.Solution? <==> !Singular(a)
    ensures !out.IsotropicPivot?
  {
    var n := |a|;
    var m := new Row[n](i requires 0 <= i < n => a[i] + [b[i]]);
    ghost var original := Augmented(a, b);
    assert m[..] == original;
    assert AllInField(original);
    var col := 0;
    while col < n
      invariant 0 <= col <= n
      invariant Faithful(m[..], original, n) && Reduced(m[..], n, col)
    {
      var p := FindPivot(m, n, col);
      if p == n {
        assert m[..][col] == m[col];
        NoPivotIsSingular(a, b, m[..], col);
        return MissingPivot;
      }
      ghost var before := m[..];
      if p != col {
        m[col], m[p] := m[p], m[col];
      }
      ghost var swapped := m[..];
      assert swapped == before[col := before[p]][p := before[col]];
      SwapStep(before, original, n, col, p);
      assert RowInField(swapped[col]);
      NormNonZero(swapped[col][col]);
      var ok := DivideRow(m, n, col);
      if !ok {
        return IsotropicPivot;
      }
      DivideStep(swapped, m[..], original, n, col);
      EliminateColumn(m, n, col, original);
      col := col + 1;
    }
    var x := [];
    for r := 0 to n
      invariant |x| == r && forall k :: 0 <= k < r ==> x[k] == m[..][k][n]
    {
      assert m[..][r] == m[r];
      x := x + [m[r][n]];
    }
    FullyReducedSolves(a, b, m[..], x);
    return Solution(x);
  }

  lemma NoPivotIsSingular(a: Matrix, b: Row, m: Matrix, col: nat)
    requires System(a, b) && col < |a| && Faithful(m, Augmented(a, b), |a|) && Reduced(m, |a|, col)
    requires forall r :: col <= r < |a| ==> m[r][col] == ZERO
    ensures Singular(a)
  {
    var n := |a|;
    var k := Dependency(m, n, col);
    DependencyAnnihilates(m, n, col);
    DependencyInField(m, n, col);
    assert Annihilates(Augmented(a, b), n, k + [ZERO]);
    KernelAnnihilates(a, b, k);
    assert k[col] != Zeros(n)[col];
  }

  lemma FullyReducedSolves(a: Matrix, b: Row, m: Matrix, x: Row)
    requires System(a, b) && Faithful(m, Augmented(a, b), |a|) && Reduced(m, |a|, |a|)
    requires |x| == |a| && forall r :: 0 <= r < |a| ==> x[r] == m[r][|a|]
    ensures RowInField(x) && OnlySolution(a, b, x) && !Singular(a)
  {
    var n := |a|;
    forall r | 0 <= r < n ensures InField(x[r]) {
      assert RowInField(m[r]);
    }
    forall z: Row ensures Solves(a, b, z) <==> z == x {
      if |z| == n {
        SolutionsAnnihilate(a, b, z);
        LastColumnSolves(m, n, x, z);
        assert Annihilates(Augmented(a, b), n, z + [MINUS_ONE]) <==> Annihilates(m, n, z + [MINUS_ONE]);
      }
    }
    OnlySolutionIsRegular(a, b, x);
  }
}
