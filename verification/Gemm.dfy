/**
 Multiplication-free matrix kernels on ternary weights: packed two-bit storage,
 the dense layer, and the unrolled kernel against the plain dot product.
 */
module Gemm {
  import opened Bytes
  import opened Tafpu

  type Weight = int

  /** A weight of 1 adds, -1 subtracts and anything else counts as zero. */
  function Term(w: Weight, x: int): int {
    if w == 1 then x else if w == -1 then -x else 0
  }

  /** On ternary weights that is the product. */
  lemma TermIsProduct(w: Weight, x: int)
    ensures -1 <= w <= 1 ==> Term(w, x) == w * x
    ensures !(-1 <= w <= 1) ==> Term(w, x) == 0
  {
  }

  /** The plain dot product of weights from position `at` with the first `n` inputs. */
  function Dot(w: seq<Weight>, at: nat, x: seq<int>, n: nat): int
    requires at + n <= |w| && n <= |x|
    decreases n
  {
    if n == 0 then 0 else Dot(w, at, x, n - 1) + Term(w[at + n - 1], x[n - 1])
  }

  /** The first `n` products of a row of weights, added up with multiplications. */
  function Products(row: seq<Weight>, x: seq<int>, n: nat): int
    requires n <= |row| && n <= |x|
    decreases n
  {
    if n == 0 then 0 else Products(row, x, n - 1) + row[n - 1] * x[n - 1]
  }

  /** On ternary weights nothing is lost by doing without multiplications. */
  lemma {:induction false} DotIsProducts(w: seq<Weight>, at: nat, row: seq<Weight>, x: seq<int>, n: nat)
    requires n <= |row| && n <= |x| && at + n <= |w| && forall c :: 0 <= c < n ==> w[at + c] == row[c] && -1 <= row[c] <= 1
    ensures Dot(w, at, x, n) == Products(row, x, n)
    decreases n
  {
    if n > 0 {
      DotIsProducts(w, at, row, x, n - 1);
      TermIsProduct(row[n - 1], x[n - 1]);
    }
  }

  function Coefficients(inputs: seq<Num>): (seq<int>, seq<int>) {
    (seq(|inputs|, i requires 0 <= i < |inputs| => inputs[i].a), seq(|inputs|, i requires 0 <= i < |inputs| => inputs[i].b))
  }

  /** Row `r` of the product, in 64 bits, at the exponent of the first input. */
  function RowProduct(w: seq<Weight>, r: nat, inputs: seq<Num>): Num
    requires inputs != [] && r * |inputs| + |inputs| <= |w|
  {
    var (a, b) := Coefficients(inputs);
    Num(Wrap64(Dot(w, r * |inputs|, a, |inputs|)), Wrap64(Dot(w, r * |inputs|, b, |inputs|)), inputs[0].s)
  }

  lemma RowFits(r: nat, rows: nat, cols: nat)
    requires r < rows
    ensures r * cols + cols <= rows * cols
  {
    assert (rows - 1 - r) * cols >= 0;
    assert rows * cols == (rows - 1 - r) * cols + r * cols + cols;
  }

  /** One conditional accumulation step, as the kernels write it. */
  function Accumulate(acc: int, w: Weight, x: int): (r: int)
    ensures r == Wrap64(acc + Term(w, x)) || (Term(w, x) == 0 && r == acc)
  {
    if w == 1 then Wrap64(acc + x) else if w == -1 then Wrap64(acc - x) else acc
  }

  /** An accumulator that has wrapped along the way still wraps to the right sum. */
  lemma AccumulateWraps(acc: int, exact: int, w: Weight, x: int)
    requires acc == Wrap64(exact)
    ensures Accumulate(acc, w, x) == Wrap64(exact + Term(w, x))
  {
    WrapAbsorbsInner(exact, x);
    WrapAbsorbsInner(exact, -x);
  }

  /** Both coefficients of one row, one position at a time. */
  method GenericRow(w: seq<Weight>, at: nat, inputs: seq<Num>) returns (accA: int, accB: int)
    requires at + |inputs| <= |w|
    ensures accA == Wrap64(Dot(w, at, Coefficients(inputs).0, |inputs|))
    ensures accB == Wrap64(Dot(w, at, Coefficients(inputs).1, |inputs|))
  {
    ghost var (a, b) := Coefficients(inputs);
    accA, accB := 0, 0;
    var c := 0;
    while c < |inputs|
      invariant 0 <= c <= |inputs|
      invariant accA == Wrap64(Dot(w, at, a, c)) && accB == Wrap64(Dot(w, at, b, c))
    {
      AccumulateWraps(accA, Dot(w, at, a, c), w[at + c], inputs[c].a);
      AccumulateWraps(accB, Dot(w, at, b, c), w[at + c], inputs[c].b);
      accA := Accumulate(accA, w[at + c], inputs[c].a);
      accB := Accumulate(accB, w[at + c], inputs[c].b);
      c := c + 1;
    }
  }

  method GenericKernel(w: seq<Weight>, inputs: seq<Num>, rows: nat, outputs: array<Num>)
    requires inputs != [] && |w| == rows * |inputs| && outputs.Length == rows
    modifies outputs
    ensures forall r :: 0 <= r < rows ==> r * |inputs| + |inputs| <= |w| && outputs[r] == RowProduct(w, r, inputs)
  {
    var r := 0;
    while r < rows
      invariant 0 <= r <= rows
      invariant forall k :: 0 <= k < r ==> k * |inputs| + |inputs| <= |w| && outputs[k] == RowProduct(w, k, inputs)
    {
      RowFits(r, rows, |inputs|);
      var accA, accB := GenericRow(w, r * |inputs|, inputs);
      outputs[r] := Num(accA, accB, inputs[0].s);
      r := r + 1;
    }
  }

  /** The part of the dot product that lane `l` of four has summed up to position `n`. */
  function Lane(w: seq<Weight>, at: nat, x: seq<int>, n: nat, l: nat): int
    requires at + n <= |w| && n <= |x| && l < 4
    decreases n
  {
    if n == 0 then 0
    else Lane(w, at, x, n - 1, l) + if (n - 1) % 4 == l then Term(w[at + n - 1], x[n - 1]) else 0
  }

  /** The four lanes together make the dot product. */
  lemma {:induction false} LanesAddUp(w: seq<Weight>, at: nat, x: seq<int>, n: nat)
    requires at + n <= |w| && n <= |x|
    ensures Lane(w, at, x, n, 0) + Lane(w, at, x, n, 1) + Lane(w, at, x, n, 2) + Lane(w, at, x, n, 3) == Dot(w, at, x, n)
    decreases n
  {
    if n > 0 {
      LanesAddUp(w, at, x, n - 1);
    }
  }

  /** One position further, the lane whose turn it is takes in its term. */
  lemma LaneNext(w: seq<Weight>, at: nat, x: seq<int>, n: nat, l: nat, turn: nat)
    requires at + n + 1 <= |w| && n + 1 <= |x| && l < 4 && n % 4 == turn
    ensures Lane(w, at, x, n + 1, l) == Lane(w, at, x, n, l) + if turn == l then Term(w[at + n], x[n]) else 0
  {
  }

  /** Four positions further, each lane has taken in the one term that is its own. */
  lemma LaneStep(w: seq<Weight>, at: nat, x: seq<int>, n: nat, l: nat)
    requires n % 4 == 0 && at + n + 4 <= |w| && n + 4 <= |x| && l < 4
    ensures Lane(w, at, x, n + 4, l) == Lane(w, at, x, n, l) + Term(w[at + n + l], x[n + l])
  {
    LaneNext(w, at, x, n, l, 0);
    LaneNext(w, at, x, n + 1, l, 1);
    LaneNext(w, at, x, n + 2, l, 2);
    LaneNext(w, at, x, n + 3, l, 3);
    FourTerms(w, at, x, n, l, Lane(w, at, x, n, l), Lane(w, at, x, n + 1, l), Lane(w, at, x, n + 2, l),
              Lane(w, at, x, n + 3, l), Lane(w, at, x, n + 4, l));
  }

  lemma FourTerms(w: seq<Weight>, at: nat, x: seq<int>, n: nat, l: nat, s0: int, s1: int, s2: int, s3: int, s4: int)
    requires at + n + 4 <= |w| && n + 4 <= |x| && l < 4
    requires s1 == s0 + if 0 == l then Term(w[at + n], x[n]) else 0
    requires s2 == s1 + if 1 == l then Term(w[at + n + 1], x[n + 1]) else 0
    requires s3 == s2 + if 2 == l then Term(w[at + n + 2], x[n + 2]) else 0
    requires s4 == s3 + if 3 == l then Term(w[at + n + 3], x[n + 3]) else 0
    ensures s4 == s0 + Term(w[at + n + l], x[n + l])
  {
  }

  /** Adding four wrapped lanes in 64 bits wraps their exact sum. */
  lemma WrappedSum(p: int, q: int, r: int, s: int)
    ensures Wrap64(Wrap64(Wrap64(Wrap64(p) + Wrap64(q)) + Wrap64(r)) + Wrap64(s)) == Wrap64(p + q + r + s)
  {
    PairSum(p, q);
    PairSum(p + q, r);
    PairSum(p + q + r, s);
  }

  lemma PairSum(p: int, q: int)
    ensures Wrap64(Wrap64(p) + Wrap64(q)) == Wrap64(p + q)
  {
    WrapAbsorbsInner(p, Wrap64(q));
    WrapAbsorbsInner(q, p);
  }

  /** One coefficient of one row, four positions at a time and then the rest. */
  method UnrolledRow(w: seq<Weight>, at: nat, x: seq<int>) returns (total: int)
    requires at + |x| <= |w|
    ensures total == Wrap64(Dot(w, at, x, |x|))
  {
    var acc0, acc1, acc2, acc3 := 0, 0, 0, 0;
    var c := 0;
    while c + 4 <= |x|
      invariant 0 <= c <= |x| && c % 4 == 0
      invariant acc0 == Wrap64(Lane(w, at, x, c, 0)) && acc1 == Wrap64(Lane(w, at, x, c, 1))
      invariant acc2 == Wrap64(Lane(w, at, x, c, 2)) && acc3 == Wrap64(Lane(w, at, x, c, 3))
    {
      acc0 := LaneAccumulate(w, at, x, c, 0, acc0);
      acc1 := LaneAccumulate(w, at, x, c, 1, acc1);
      acc2 := LaneAccumulate(w, at, x, c, 2, acc2);
      acc3 := LaneAccumulate(w, at, x, c, 3, acc3);
      c := c + 4;
    }
    LanesAddUp(w, at, x, c);
    WrappedSum(Lane(w, at, x, c, 0), Lane(w, at, x, c, 1), Lane(w, at, x, c, 2), Lane(w, at, x, c, 3));
    total := Wrap64(Wrap64(Wrap64(acc0 + acc1) + acc2) + acc3);
    while c < |x|
      invariant 0 <= c <= |x|
      invariant total == Wrap64(Dot(w, at, x, c))
    {
      AccumulateWraps(total, Dot(w, at, x, c), w[at + c], x[c]);
      total := Accumulate(total, w[at + c], x[c]);
      c := c + 1;
    }
  }

  method LaneAccumulate(w: seq<Weight>, at: nat, x: seq<int>, c: nat, l: nat, acc: int) returns (next: int)
    requires c % 4 == 0 && at + c + 4 <= |w| && c + 4 <= |x| && l < 4
    requires acc == Wrap64(Lane(w, at, x, c, l))
    ensures next == Wrap64(Lane(w, at, x, c + 4, l))
  {
    LaneStep(w, at, x, c, l);
    AccumulateWraps(acc, Lane(w, at, x, c, l), w[at + c + l], x[c + l]);
    next := Accumulate(acc, w[at + c + l], x[c + l]);
  }

  /** The unrolled kernel computes what the generic one does, for all sizes and inputs. */
  method UnrolledKernel(w: seq<Weight>, inputs: seq<Num>, rows: nat, outputs: array<Num>)
    requires inputs != [] && |w| == rows * |inputs| && outputs.Length == rows
    modifies outputs
    ensures forall r :: 0 <= r < rows ==> r * |inputs| + |inputs| <= |w| && outputs[r] == RowProduct(w, r, inputs)
  {
    var (a, b) := Coefficients(inputs);
    var r := 0;
    while r < rows
      invariant 0 <= r <= rows
      invariant forall k :: 0 <= k < r ==> k * |inputs| + |inputs| <= |w| && outputs[k] == RowProduct(w, k, inputs)
    {
      RowFits(r, rows, |inputs|);
      var totalA := UnrolledRow(w, r * |inputs|, a);
      var totalB := UnrolledRow(w, r * |inputs|, b);
      outputs[r] := Num(totalA, totalB, inputs[0].s);
      r := r + 1;
    }
  }

  // ------------------------------------------------ the product as a number

  function ValueDot(w: seq<Weight>, at: nat, inputs: seq<Num>, n: nat, q: Root): real
    requires at + n <= |w| && n <= |inputs|
    decreases n
  {
    if n == 0 then 0.0
    else ValueDot(w, at, inputs, n - 1, q) + Term(w[at + n - 1], 1) as real * Value(inputs[n - 1], q)
  }

  lemma {:induction false} DotValue(w: seq<Weight>, at: nat, inputs: seq<Num>, n: nat, s: int, q: Root)
    requires at + n <= |w| && n <= |inputs|
    requires forall i :: 0 <= i < n ==> inputs[i].s == s
    ensures var (a, b) := Coefficients(inputs);
      ValueDot(w, at, inputs, n, q) == Value(Num(Dot(w, at, a, n), Dot(w, at, b, n), s), q)
    decreases n
  {
    var (a, b) := Coefficients(inputs);
    if n > 0 {
      DotValue(w, at, inputs, n - 1, s, q);
      var x, weight := inputs[n - 1], w[at + n - 1];
      AddAligned(Num(Dot(w, at, a, n - 1), Dot(w, at, b, n - 1), s), Num(Term(weight, x.a), Term(weight, x.b), s), q);
      TermValue(weight, x, q);
    } else {
      assert Base(0, 0, q.r) == 0.0;
    }
  }

  lemma TermValue(w: Weight, x: Num, q: Root)
    ensures Value(Num(Term(w, x.a), Term(w, x.b), x.s), q) == Term(w, 1) as real * Value(x, q)
  {
    if w == -1 {
      NegValue(x, q);
    } else if w != 1 {
      assert Base(0, 0, q.r) == 0.0;
    }
  }

  /** With inputs at one exponent, a row is the exact dot product in Q(sqrt 3) exactly
      when both its sums fit in 64 bits. */
  lemma RowExactIff(w: seq<Weight>, r: nat, inputs: seq<Num>, q: Root)
    requires IsRootThree(q) && inputs != [] && r * |inputs| + |inputs| <= |w|
    requires forall i :: 0 <= i < |inputs| ==> inputs[i].s == inputs[0].s
    ensures var (a, b) := Coefficients(inputs);
      Value(RowProduct(w, r, inputs), q) == ValueDot(w, r * |inputs|, inputs, |inputs|, q) <==>
      Fits64(Dot(w, r * |inputs|, a, |inputs|)) && Fits64(Dot(w, r * |inputs|, b, |inputs|))
  {
    var (a, b) := Coefficients(inputs);
    var n, at := |inputs|, r * |inputs|;
    DotValue(w, at, inputs, n, inputs[0].s, q);
    var exact := Num(Dot(w, at, a, n), Dot(w, at, b, n), inputs[0].s);
    SameNumber(WrapNum(exact), exact, q);
    WrapIff(exact);
  }

  // -------------------------------------------------------- packed storage

  /** The two-bit code at offset 0, 2, 4 or 6 of a byte. */
  function Code(byte: bv8, offset: bv8): bv8
    requires offset <= 6
  {
    (byte >> offset) & 3
  }

  function Encode(val: int): bv8 {
    if val == 1 then 1 else if val == -1 then 2 else 0
  }

  function DecodeWeight(code: bv8): int {
    if code == 1 then 1 else if code == 2 then -1 else 0
  }

  function Offset(k: nat): bv8
    requires k < 4
  {
    if k == 0 then 0 else if k == 1 then 2 else if k == 2 then 4 else 6
  }

  function Store(byte: bv8, offset: bv8, code: bv8): bv8
    requires offset <= 6
  {
    (byte & !(3 << offset)) | (code << offset)
  }

  /** Storing a code changes that cell of the byte and no other. */
  lemma StoreFacts(byte: bv8, k: nat, m: nat, code: bv8)
    requires k < 4 && m < 4 && code <= 3
    ensures Code(Store(byte, Offset(k), code), Offset(m)) == if m == k then code else Code(byte, Offset(m))
  {
  }

  /** Four weights in one byte: the first in the lowest two bits, 1 as one and -1 as two. */
  lemma PackedByte(w: seq<Weight>)
    requires |w| == 4 && forall k :: 0 <= k < 4 ==> -1 <= w[k] <= 1
    ensures var e := Store(Store(Store(Store(0, Offset(0), Encode(w[0])), Offset(1), Encode(w[1])), Offset(2), Encode(w[2])),
                           Offset(3), Encode(w[3]));
      e == Digit(w[0]) + 4 * Digit(w[1]) + 16 * Digit(w[2]) + 64 * Digit(w[3])
  {
    Four(Encode(w[0]), Encode(w[1]), Encode(w[2]), Encode(w[3]));
  }

  function Digit(w: Weight): bv8 {
    if w < 0 then 2 else if w == 0 then 0 else 1
  }

  lemma Four(c0: bv8, c1: bv8, c2: bv8, c3: bv8)
    requires c0 <= 3 && c1 <= 3 && c2 <= 3 && c3 <= 3
    ensures Store(Store(Store(Store(0, 0, c0), 2, c1), 4, c2), 6, c3) == c0 + 4 * c1 + 16 * c2 + 64 * c3
  {
  }

  /** The weight at position `idx` of packed bytes, four to a byte. */
  function Cell(bytes: seq<bv8>, idx: nat): int
    requires idx / 4 < |bytes|
  {
    DecodeWeight(Code(bytes[idx / 4], Offset(idx % 4)))
  }

  class PackedTernaryTensor {
    const rows: nat
    const cols: nat
    const data: array<bv8>
    /** The matrix, row by row. */
    ghost var cells: seq<Weight>

    ghost predicate Valid()
      reads this, data
    {
      && |cells| == rows * cols && data.Length == (|cells| + 3) / 4
      && forall idx :: 0 <= idx < |cells| ==> cells[idx] == Cell(data[..], idx)
    }

    constructor (rows: nat, cols: nat)
      ensures Valid() && fresh(data) && this.rows == rows && this.cols == cols
      ensures forall idx :: 0 <= idx < |cells| ==> cells[idx] == 0
    {
      this.rows, this.cols := rows, cols;
      data := new bv8[(rows * cols + 3) / 4](_ => 0);
      cells := seq(rows * cols, _ => 0);
      new;
      forall idx | 0 <= idx < |cells| ensures Cell(data[..], idx) == 0 {
        ZeroCode(Offset(idx % 4));
      }
    }

    /** Sets one cell and no other; values besides 1 and -1 are stored as zero. */
    method Set(r: nat, c: nat, val: int)
      requires Valid() && r < rows && c < cols
      modifies data, this`cells
      ensures Valid() && r * cols + c < |old(cells)| && cells == old(cells)[r * cols + c := if -1 <= val <= 1 then val else 0]
    {
      RowFits(r, rows, cols);
      var idx := r * cols + c;
      StoreCell(idx, val);
    }

    method StoreCell(idx: nat, val: int)
      requires Valid() && idx < |cells|
      modifies data, this`cells
      ensures Valid() && cells == old(cells)[idx := if -1 <= val <= 1 then val else 0]
    {
      var code := Encode(val);
      ghost var was := data[..];
      data[idx / 4] := Store(data[idx / 4], Offset(idx % 4), code);
      cells := cells[idx := if -1 <= val <= 1 then val else 0];
      forall i | 0 <= i < |cells| ensures cells[i] == Cell(data[..], i) {
        if i / 4 == idx / 4 {
          StoreFacts(was[i / 4], idx % 4, i % 4, code);
        }
      }
    }

    method Get(r: nat, c: nat) returns (w: int)
      requires Valid() && r < rows && c < cols
      ensures r * cols + c < |cells| && w == cells[r * cols + c] && -1 <= w <= 1
    {
      RowFits(r, rows, cols);
      var idx := r * cols + c;
      w := DecodeWeight(Code(data[idx / 4], Offset(idx % 4)));
      assert w == Cell(data[..], idx);
    }
  }

  lemma ZeroCode(offset: bv8)
    requires offset <= 6
    ensures Code(0, offset) == 0
  {
  }

  // ------------------------------------------------------------- dense layer

  datatype Activation = NONE | TERNARY_SIGN | RELU | STEP

  function Activate(act: Activation, acc: int): int {
    match act
    case TERNARY_SIGN => if acc > 0 then 1 else if acc < 0 then -1 else 0
    case RELU => if acc > 0 then acc else 0
    case STEP => if acc >= 0 then 1 else 0
    case NONE => acc
  }

  /** Row `r` of the weights times the input, with multiplications. */
  function RowSum(cells: seq<Weight>, r: nat, input: seq<int>): int
    requires r * |input| + |input| <= |cells|
  {
    Products(cells[r * |input|..r * |input| + |input|], input, |input|)
  }

  lemma OneProductMore(row: seq<Weight>, input: seq<int>, c: nat, bias: int, acc: int, weight: Weight)
    requires c < |row| && c < |input| && weight == row[c] && -1 <= weight <= 1
    requires acc == Wrap64(bias + Products(row, input, c))
    ensures Accumulate(acc, weight, input[c]) == Wrap64(bias + Products(row, input, c + 1))
  {
    TermIsProduct(weight, input[c]);
    AccumulateWraps(acc, bias + Products(row, input, c), weight, input[c]);
  }

  /** One row's bias plus products, by additions and subtractions only. */
  method ForwardRow(weights: PackedTernaryTensor, bias: int, r: nat, input: seq<int>) returns (acc: int)
    requires weights.Valid() && r < weights.rows && |input| == weights.cols && Fits64(bias)
    ensures r * |input| + |input| <= |weights.cells| && acc == Wrap64(bias + RowSum(weights.cells, r, input))
  {
    RowFits(r, weights.rows, weights.cols);
    ghost var row := weights.cells[r * |input|..r * |input| + |input|];
    acc := bias;
    var c := 0;
    while c < |input|
      invariant 0 <= c <= |input|
      invariant acc == Wrap64(bias + Products(row, input, c))
    {
      var weight := weights.Get(r, c);
      OneProductMore(row, input, c, bias, acc, weight);
      acc := Accumulate(acc, weight, input[c]);
      c := c + 1;
    }
  }

  /** One output, from the sum of its row. */
  method ForwardOne(weights: PackedTernaryTensor, bias: int, r: nat, act: Activation, input: seq<int>) returns (out: int)
    requires weights.Valid() && r < weights.rows && |input| == weights.cols && Fits64(bias)
    ensures r * |input| + |input| <= |weights.cells|
    ensures out == Activate(act, Wrap64(bias + RowSum(weights.cells, r, input)))
  {
    var acc := ForwardRow(weights, bias, r, input);
    out := Activate(act, acc);
  }

  method Forward(weights: PackedTernaryTensor, bias: seq<int>, act: Activation, input: seq<int>, output: array<int>)
    requires weights.Valid() && |bias| == output.Length == weights.rows && |input| == weights.cols
    requires (output as object) != weights.data
    requires forall r :: 0 <= r < |bias| ==> Fits64(bias[r])
    modifies output
    ensures forall r :: 0 <= r < |bias| ==> r * |input| + |input| <= |weights.cells|
    ensures forall r :: 0 <= r < |bias| ==>
      var z := Wrap64(bias[r] + RowSum(weights.cells, r, input));
      && (act == NONE ==> output[r] == z)
      && (act == RELU ==> if z > 0 then output[r] == z else output[r] == 0)
      && (act == STEP ==> if z >= 0 then output[r] == 1 else output[r] == 0)
      && (act == TERNARY_SIGN ==> if z == 0 then output[r] == 0 else if z > 0 then output[r] == 1 else output[r] == -1)
  {
    var r := 0;
    while r < |bias|
      invariant 0 <= r <= |bias| && weights.Valid()
      invariant forall k :: 0 <= k < r ==> k * |input| + |input| <= |weights.cells|
      invariant forall k :: 0 <= k < r ==> output[k] == Activate(act, Wrap64(bias[k] + RowSum(weights.cells, k, input)))
    {
      output[r] := ForwardOne(weights, bias[r], r, act, input);
      r := r + 1;
    }
  }
}
