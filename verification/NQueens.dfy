/**
 The n-queens benchmark: backtracking over rows with three bit masks counts
 exactly the legal boards.
 */
module NQueens {
  import opened Bits

  /** A board under construction: the column of the queen in each row so far. */
  type Board = seq<nat>

  predicate Attack(r: nat, c: nat, s: nat, d: nat) {
    c == d || c + s == d + r || c + r == d + s
  }

  predicate Legal(q: Board, n: nat) {
    && (forall r :: 0 <= r < |q| ==> q[r] < n)
    && (forall r, s :: 0 <= r < s < |q| ==> !Attack(r, q[r], s, q[s]))
  }

  /** Every way to choose a column for each of `k` rows. */
  function AllBoards(n: nat, k: nat): (bs: set<Board>)
    ensures forall b: Board :: b in bs <==> |b| == k && forall r :: 0 <= r < k ==> b[r] < n
    decreases k
  {
    if k == 0 then {[]}
    else
      var shorter := AllBoards(n, k - 1);
      var bs := set b, c: nat | b in shorter && c < n :: b + [c];
      assert forall b: Board {:trigger b in bs} | |b| == k && (forall r :: 0 <= r < k ==> b[r] < n) :: b in bs by {
        forall b: Board | |b| == k && (forall r :: 0 <= r < k ==> b[r] < n) ensures b in bs {
          assert b == b[..k - 1] + [b[k - 1]] && b[..k - 1] in shorter;
        }
      }
      bs
  }

  /** The complete legal boards that begin with `q`. */
  function Completions(q: Board, n: nat): set<Board> {
    set b | b in AllBoards(n, n) && Legal(b, n) && q <= b
  }

  /** The masks describe which columns of row `|q|` the queens of `q` attack. */
  ghost predicate Masks(q: Board, cols: nat, diag1: nat, diag2: nat) {
    && (forall i: nat :: Bit(cols, i) <==> exists r :: 0 <= r < |q| && q[r] == i)
    && (forall i: nat :: Bit(diag1, i) <==> exists r :: 0 <= r < |q| && q[r] + |q| == i + r)
    && (forall i: nat :: Bit(diag2, i) <==> exists r :: 0 <= r < |q| && q[r] + r == i + |q|)
  }

  /** A column is free exactly when putting a queen there keeps the board legal. */
  lemma FreeColumn(q: Board, n: nat, cols: nat, diag1: nat, diag2: nat, i: nat)
    requires Legal(q, n) && Masks(q, cols, diag1, diag2) && i < n
    ensures Legal(q + [i], n) <==> !Bit(cols, i) && !Bit(diag1, i) && !Bit(diag2, i)
  {
    var b := q + [i];
    if Legal(b, n) {
      assert forall r :: 0 <= r < |q| ==> b[r] == q[r] && !Attack(r, b[r], |q|, b[|q|]);
    }
    if !Bit(cols, i) && !Bit(diag1, i) && !Bit(diag2, i) {
      forall r, s | 0 <= r < s < |b| ensures !Attack(r, b[r], s, b[s]) {
        if s == |q| {
          assert b[r] == q[r];
        }
      }
    }
  }

  /** The columns left over by the three masks are the legal ones. */
  lemma AvailableColumns(q: Board, n: nat, cols: nat, diag1: nat, diag2: nat)
    requires Legal(q, n) && Masks(q, cols, diag1, diag2)
    ensures var ones := Pow2(n) - 1;
      forall i: nat :: Bit(Xor(ones, And(ones, Or(Or(cols, diag1), diag2))), i) <==> i < n && Legal(q + [i], n)
  {
    var ones := Pow2(n) - 1;
    var occupied := Or(Or(cols, diag1), diag2);
    forall i: nat ensures Bit(Xor(ones, And(ones, occupied)), i) <==> i < n && Legal(q + [i], n) {
      MaskBits(n, i);
      OrBits(Or(cols, diag1), diag2, i);
      OrBits(cols, diag1, i);
      AndBits(ones, occupied, i);
      XorBits(ones, And(ones, occupied), i);
      if i < n {
        FreeColumn(q, n, cols, diag1, diag2, i);
      }
    }
  }

  /** The recursive call's masks describe the longer board. */
  lemma NextMasks(q: Board, cols: nat, diag1: nat, diag2: nat, j: nat)
    requires Masks(q, cols, diag1, diag2)
    ensures Masks(q + [j], Or(cols, Pow2(j)), 2 * Or(diag1, Pow2(j)), Or(diag2, Pow2(j)) / 2)
  {
    var b := q + [j];
    forall i: nat ensures Bit(Or(cols, Pow2(j)), i) <==> exists r :: 0 <= r < |b| && b[r] == i {
      OrBits(cols, Pow2(j), i);
      PowBits(j, i);
      assert b[|q|] == j && forall r :: 0 <= r < |q| ==> b[r] == q[r];
    }
    forall i: nat ensures Bit(2 * Or(diag1, Pow2(j)), i) <==> exists r :: 0 <= r < |b| && b[r] + |b| == i + r {
      ShiftLeftBits(Or(diag1, Pow2(j)), i);
      assert b[|q|] == j && forall r :: 0 <= r < |q| ==> b[r] == q[r];
      if i > 0 {
        OrBits(diag1, Pow2(j), i - 1);
        PowBits(j, i - 1);
      }
    }
    forall i: nat ensures Bit(Or(diag2, Pow2(j)) / 2, i) <==> exists r :: 0 <= r < |b| && b[r] + r == i + |b| {
      OrBits(diag2, Pow2(j), i + 1);
      PowBits(j, i + 1);
      assert Bit(Or(diag2, Pow2(j)) / 2, i) == Bit(Or(diag2, Pow2(j)), i + 1);
      assert b[|q|] == j && forall r :: 0 <= r < |q| ==> b[r] == q[r];
    }
  }

  lemma PrefixLegal(b: Board, n: nat, k: nat)
    requires Legal(b, n) && k <= |b|
    ensures Legal(b[..k], n)
  {
  }

  /** The completions whose next column has already been tried. */
  function Tried(q: Board, n: nat, available: nat): set<Board>
    requires |q| < n
  {
    set b | b in Completions(q, n) && !Bit(available, b[|q|])
  }

  /** Trying column `j` adds exactly the completions of `q + [j]`. */
  lemma TryColumn(q: Board, n: nat, available: nat, j: nat)
    requires |q| < n && Bit(available, j)
    ensures Tried(q, n, Xor(available, Pow2(j))) == Tried(q, n, available) + Completions(q + [j], n)
    ensures Tried(q, n, available) !! Completions(q + [j], n)
  {
    var rest := Xor(available, Pow2(j));
    forall b: Board | b in AllBoards(n, n)
      ensures b in Tried(q, n, rest) <==> b in Tried(q, n, available) + Completions(q + [j], n)
    {
      var i := b[|q|];
      XorBits(available, Pow2(j), i);
      PowBits(j, i);
      assert q + [j] <= b <==> q <= b && i == j by {
        if q <= b && i == j {
          assert b[..|q| + 1] == q + [j];
        }
        if q + [j] <= b {
          assert (q + [j])[|q|] == b[|q|];
          assert q <= q + [j];
        }
      }
    }
    forall b | b in Completions(q + [j], n) ensures b !in Tried(q, n, available) {
      assert (q + [j])[|q|] == b[|q|];
    }
  }

  /** At first the free columns are all still to be tried. */
  lemma NothingTried(q: Board, n: nat, available: nat)
    requires |q| < n
    requires forall i: nat :: Bit(available, i) <==> i < n && Legal(q + [i], n)
    ensures Tried(q, n, available) == {}
  {
    forall b | b in Completions(q, n) ensures Bit(available, b[|q|]) {
      PrefixLegal(b, n, |q| + 1);
      assert b[..|q| + 1] == q + [b[|q|]];
    }
  }

  lemma AllTried(q: Board, n: nat)
    requires |q| < n
    ensures Tried(q, n, 0) == Completions(q, n)
  {
    forall b | b in Completions(q, n) ensures !Bit(0, b[|q|]) {
      ZeroBits(b[|q|]);
    }
  }

  /** A full board has one completion, itself. */
  lemma FullBoard(q: Board, n: nat)
    requires |q| == n && Legal(q, n)
    ensures Completions(q, n) == {q}
  {
    forall b: Board | |b| == n && q <= b ensures b == q {
      assert b[..n] == b;
    }
    assert q in Completions(q, n);
  }

  /** Counts the completions of the board `q` that the masks stand for. */
  method SolveNQueens(row: nat, n: nat, cols: nat, diag1: nat, diag2: nat, ghost q: Board) returns (count: nat)
    requires row == |q| <= n && Legal(q, n) && Masks(q, cols, diag1, diag2)
    ensures count == |Completions(q, n)|
    decreases n - row
  {
    if row == n {
      FullBoard(q, n);
      return 1;
    }
    count := 0;
    var allOnes := Pow2(n) - 1;
    var occupied := Or(Or(cols, diag1), diag2);
    var available: int := Xor(allOnes, And(allOnes, occupied));
    AvailableColumns(q, n, cols, diag1, diag2);
    NothingTried(q, n, available);
    while available > 0
      invariant available >= 0
      invariant forall i: nat :: Bit(available, i) ==> i < n && Legal(q + [i], n)
      invariant count == |Tried(q, n, available)|
      decreases available
    {
      ghost var j := LowestBit(available);
      var bit := And(available, -available);
      ghost var before := available;
      available := Xor(available, bit);
      XorClears(before, j);
      TryColumn(q, n, before, j);
      NextMasks(q, cols, diag1, diag2, j);
      var more := SolveNQueens(row + 1, n, Or(cols, bit), 2 * Or(diag1, bit), Or(diag2, bit) / 2, q + [j]);
      count := count + more;
      forall i: nat | Bit(available, i) ensures i < n && Legal(q + [i], n) {
        XorBits(before, bit, i);
        PowBits(j, i);
      }
    }
    AllTried(q, n);
  }

  /** The number of solutions of the n-queens problem. */
  method CountQueens(n: nat) returns (count: nat)
    ensures count == |set b | b in AllBoards(n, n) && Legal(b, n)|
  {
    NoQueens();
    count := SolveNQueens(0, n, 0, 0, 0, []);
    assert Completions([], n) == set b | b in AllBoards(n, n) && Legal(b, n);
  }

  lemma NoQueens()
    ensures Masks([], 0, 0, 0)
  {
    forall i: nat ensures !Bit(0, i) {
      ZeroBits(i);
    }
  }
}
