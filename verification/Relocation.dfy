/** Jump relocation: the position map is monotone, never stretches, and every rewritten operand lands. */
module Relocation {
  import opened Bytes
  import opened Vm
  import opened Optimizer
  import opened Passes

  /** A start of a translated block, or the end of the code. */
  ghost predicate Boundary(lay: Layout, t: int) {
    exists i: nat :: i < |lay.starts| && lay.starts[i] == t
  }

  lemma BoundaryMapped(a: Input, lay: Layout, pcs: seq<nat>, body: seq<Byte>, i: nat)
    requires Translated(a, lay, pcs, body) && i <= Blocks(lay)
    ensures lay.starts[i] < |pcs| && pcs[lay.starts[i]] == lay.outs[i]
    ensures lay.outs[i] <= |body|
  {
    LayoutOrder(a, lay, i, Blocks(lay));
    if i < Blocks(lay) {
      assert MappedBlock(lay, pcs, i);
      LayoutOrder(a, lay, i, i + 1);
    }
  }

  /** Translated blocks are never longer than the canonical code they replace. */
  lemma {:induction false} NeverStretches(a: Input, lay: Layout, i: nat, j: nat)
    requires LaidOut(a, lay) && i <= j <= Blocks(lay)
    ensures lay.starts[i] <= lay.starts[j] && lay.outs[i] <= lay.outs[j]
    ensures lay.outs[j] + lay.starts[i] <= lay.starts[j] + lay.outs[i]
    decreases j - i
  {
    if i < j {
      assert Adjacent(a, lay, i);
      NeverStretches(a, lay, i + 1, j);
    }
  }

  /** The block that contains a position. */
  lemma {:induction false} BlockOf(a: Input, lay: Layout, t: nat, n: nat) returns (i: nat)
    requires LaidOut(a, lay) && n <= Blocks(lay) && t < lay.starts[n]
    ensures i < n && lay.starts[i] <= t < lay.starts[i + 1]
    decreases n
  {
    assert Adjacent(a, lay, n - 1);
    if lay.starts[n - 1] <= t {
      i := n - 1;
    } else {
      i := BlockOf(a, lay, t, n - 1);
    }
  }

  /** A later canonical position never maps to an earlier optimized one. */
  lemma PcMapMonotone(a: Input, lay: Layout, pcs: seq<nat>, body: seq<Byte>, x: nat, y: nat)
    requires Translated(a, lay, pcs, body) && x <= y <= |a.c|
    ensures pcs[x] <= pcs[y] <= |body|
  {
    var n := Blocks(lay);
    if x == |a.c| {
    } else {
      var i := BlockOf(a, lay, x, n);
      assert MappedBlock(lay, pcs, i);
      BoundaryMapped(a, lay, pcs, body, i);
      if y < |a.c| {
        var j := BlockOf(a, lay, y, n);
        assert MappedBlock(lay, pcs, j);
        BoundaryMapped(a, lay, pcs, body, j);
        if j < i {
          LayoutOrder(a, lay, j + 1, i);
          assert false;
        }
        LayoutOrder(a, lay, i, j);
      }
    }
  }

  /** Where the relative operand of an arm is counted from in the canonical code. */
  function OrigBase(k: Kind, arm: Arm): nat {
    if k == LoopHeader then 46 else arm.base
  }

  /** The operand an arm carries in the canonical code. */
  function OrigOffset(a: Input, ip: nat, j: nat): int
    requires a.BlockAt(ip) && j < |a.ArmsAt(ip)|
  {
    a.ArmsAt(ip)[j].target - (ip + OrigBase(a.KindAt(ip), a.ArmsAt(ip)[j]))
  }

  /** The operand found in the optimized code. */
  function NewOffset(a: Input, lay: Layout, body: seq<Byte>, i: nat, j: nat): int
    requires Adjacent(a, lay, i) && j < |a.ArmsAt(lay.starts[i])|
    requires lay.outs[i] + a.ArmsAt(lay.starts[i])[j].at + 1 < |body|
  {
    Offset(body, lay.outs[i] + a.ArmsAt(lay.starts[i])[j].at)
  }

  lemma ArmShape(c: seq<Byte>, ip: nat, k: Kind, j: nat)
    requires Fits(c, ip, k) && j < |Arms(c, ip, k)|
    ensures var arm := Arms(c, ip, k)[j];
      && arm.at + 2 <= arm.base <= EmitLen(c, ip, k)
      && EmitLen(c, ip, k) - arm.base <= SrcLen(c, ip, k) - OrigBase(k, arm)
      && arm.base <= OrigBase(k, arm) <= SrcLen(c, ip, k)
      && FitsInt16(arm.target - (ip + OrigBase(k, arm)))
  {
  }

  lemma OperandBytes(c: seq<Byte>, ip: nat, k: Kind, rel: seq<int>, j: nat)
    requires Fits(c, ip, k) && |rel| == |Arms(c, ip, k)| && j < |rel|
    ensures var e, at := Emit(c, ip, k, rel), Arms(c, ip, k)[j].at;
      at + 1 < |e| && e[at] == Lo(rel[j]) && e[at + 1] == Hi(rel[j])
  {
  }

  lemma WordFound(code: seq<Byte>, out: nat, e: seq<Byte>, at: nat, v: int)
    requires HasBytes(code, out, e) && at + 1 < |e| && e[at] == Lo(v) && e[at + 1] == Hi(v)
    ensures Offset(code, out + at) == v <==> FitsInt16(v)
  {
    assert code[out + at] == e[at] && code[out + (at + 1)] == e[at + 1];
    WordLosesLargeOffsets(v);
  }

  /** For any destination: the rewritten jump lands on the mapped destination
      exactly when the distance still fits 16 bits. */
  lemma JumpLandsIff(a: Input, lay: Layout, pcs: seq<nat>, body: seq<Byte>, i: nat, j: nat)
    requires Translated(a, lay, pcs, body) && i < Blocks(lay) && Adjacent(a, lay, i)
    requires j < |a.ArmsAt(lay.starts[i])|
    ensures var arm := a.ArmsAt(lay.starts[i])[j];
      && lay.outs[i] + arm.at + 1 < |body|
      && var dest := NewTarget(pcs, |body|, arm.target);
         var base := lay.outs[i] + arm.base;
         (base + NewOffset(a, lay, body, i, j) == dest <==> FitsInt16(dest - base))
  {
    var ip, out := lay.starts[i], lay.outs[i];
    var arms := a.ArmsAt(ip);
    var rel := RelOf(arms, out, pcs, |body|);
    assert BlockDone(a, lay, body, pcs, i);
    OperandBytes(a.c, ip, a.KindAt(ip), rel, j);
    WordFound(body, out, a.Block(ip, rel), arms[j].at, rel[j]);
  }

  /** A jump to a block boundary keeps its direction, never gets longer, so it
      still fits 16 bits, and lands on the mapped destination. */
  lemma JumpToBoundaryLands(a: Input, lay: Layout, pcs: seq<nat>, body: seq<Byte>, i: nat, j: nat)
    requires Translated(a, lay, pcs, body) && i < Blocks(lay) && Adjacent(a, lay, i)
    requires j < |a.ArmsAt(lay.starts[i])| && Boundary(lay, a.ArmsAt(lay.starts[i])[j].target)
    ensures var arm := a.ArmsAt(lay.starts[i])[j];
      && 0 <= arm.target < |pcs| && lay.outs[i] + arm.at + 1 < |body|
      && var old_, new_ := OrigOffset(a, lay.starts[i], j), NewOffset(a, lay, body, i, j);
         && lay.outs[i] + arm.base + new_ == pcs[arm.target]
         && (old_ >= 0 ==> 0 <= new_ <= old_)
         && (old_ < 0 ==> old_ <= new_ < 0)
  {
    var ip := lay.starts[i];
    var arm := a.ArmsAt(ip)[j];
    var m: nat :| m < |lay.starts| && lay.starts[m] == arm.target;
    BoundaryMapped(a, lay, pcs, body, m);
    ArmShape(a.c, ip, a.KindAt(ip), j);
    if m <= i {
      NeverStretches(a, lay, m, i);
    } else {
      NeverStretches(a, lay, i + 1, m);
    }
    JumpLandsIff(a, lay, pcs, body, i, j);
  }

  // ------------------------------------------- which destinations are boundaries

  /** A superinstruction range never hides a collected target that is an instruction start. */
  lemma {:induction false} FuseWalkExcludes(c: seq<Byte>, ip: nat, end: nat, first: bool, targets: set<int>, t: nat)
    requires end <= |c| && FuseWalk(c, ip, end, first, targets) && Steps(c, ip, t) && t in targets
    requires ip <= t < end
    ensures t == ip && first
    decreases end - ip
  {
    if t != ip {
      StepsForward(c, ip, t);
      FuseWalkExcludes(c, ip + CanonLen(c[ip]), end, false, targets, t);
    }
  }

  lemma {:induction false} StepsForward(c: seq<Byte>, x: nat, y: nat)
    requires Steps(c, x, y)
    ensures x <= y && (x < y ==> x < |c| && x + CanonLen(c[x]) <= y)
    decreases |c| - x
  {
    if x != y {
      StepsForward(c, x + CanonLen(c[x]), y);
    }
  }

  /** Two positions reached from the same start are ordered by stepping. */
  lemma {:induction false} StepsBetween(c: seq<Byte>, s: nat, x: nat, y: nat)
    requires Steps(c, s, x) && Steps(c, s, y) && x <= y
    ensures Steps(c, x, y)
    decreases |c| - s
  {
    StepsForward(c, s, x);
    if s != x {
      StepsForward(c, s, y);
      StepsBetween(c, s + CanonLen(c[s]), x, y);
    }
  }

  lemma {:induction false} StartsReached(a: Input, lay: Layout, i: nat)
    requires LaidOut(a, lay) && i <= Blocks(lay)
    ensures Steps(a.c, 0, lay.starts[i])
    decreases i
  {
    if i > 0 {
      StartsReached(a, lay, i - 1);
      assert Adjacent(a, lay, i - 1);
      BlockSteps(a.c, a.f, a.targets, lay.starts[i - 1]);
      StepsTrans(a.c, 0, lay.starts[i - 1], lay.starts[i]);
    }
  }

  /** Loop headers and increments are fused without looking at the jump targets. */
  predicate Unguarded(k: Kind) {
    k == LoopHeader || k == Increment
  }

  /** Strictly inside a block that was fused without a look at the targets. */
  ghost predicate InsideUnguarded(a: Input, lay: Layout, t: int) {
    exists i: nat :: i < Blocks(lay) && Adjacent(a, lay, i) && Unguarded(a.KindAt(lay.starts[i]))
      && lay.starts[i] < t < lay.starts[i + 1]
  }

  lemma NoStartInside(a: Input, ip: nat, t: nat)
    requires a.BlockAt(ip) && ip < t < a.Next(ip) && Steps(a.c, ip, t)
    requires a.f.superinstructions ==> t in a.targets
    ensures Unguarded(a.KindAt(ip))
  {
    StepsForward(a.c, ip, t);
    match a.KindAt(ip)
    case MulAddA => FuseWalkExcludes(a.c, ip, ip + 15, true, a.targets, t);
    case MulAddB => FuseWalkExcludes(a.c, ip, ip + 15, true, a.targets, t);
    case AddStore => FuseWalkExcludes(a.c, ip, ip + 11, true, a.targets, t);
    case StorePop => FuseWalkExcludes(a.c, ip, ip + 4, true, a.targets, t);
    case LoadLoad => FuseWalkExcludes(a.c, ip, ip + 6, true, a.targets, t);
    case _ =>
  }

  /** A boundary is strictly inside no block. */
  lemma BoundaryNotInside(a: Input, lay: Layout, t: nat)
    requires LaidOut(a, lay) && Boundary(lay, t)
    ensures !InsideUnguarded(a, lay, t)
  {
    var m: nat :| m < |lay.starts| && lay.starts[m] == t;
    forall i: nat | i < Blocks(lay) && Adjacent(a, lay, i) ensures !(lay.starts[i] < t < lay.starts[i + 1]) {
      if i < m {
        LayoutOrder(a, lay, i + 1, m);
      } else {
        LayoutOrder(a, lay, m, i);
      }
    }
  }

  /** An instruction start that fusion respects, when it is no boundary, is strictly inside
      a block that was fused without a look at the targets. */
  lemma NoBoundaryIsInside(a: Input, lay: Layout, t: nat)
    requires LaidOut(a, lay) && lay.starts[Blocks(lay)] == |a.c| && !Boundary(lay, t)
    requires t < |a.c| && Steps(a.c, 0, t)
    requires a.f.superinstructions ==> t in a.targets
    ensures InsideUnguarded(a, lay, t)
  {
    var i := BlockOf(a, lay, t, Blocks(lay));
    assert Adjacent(a, lay, i) && lay.starts[i] != t;
    StartsReached(a, lay, i);
    StepsBetween(a.c, 0, lay.starts[i], t);
    NoStartInside(a, lay.starts[i], t);
  }

  /** An instruction start that fusion respects is a boundary unless it is
      strictly inside a loop header or an increment. */
  lemma TargetIsBoundary(a: Input, lay: Layout, t: nat)
    requires LaidOut(a, lay) && lay.starts[Blocks(lay)] == |a.c|
    requires t <= |a.c| && Steps(a.c, 0, t)
    requires a.f.superinstructions ==> t in a.targets
    ensures Boundary(lay, t) <==> !InsideUnguarded(a, lay, t)
  {
    assert t == |a.c| ==> lay.starts[Blocks(lay)] == t;
    if Boundary(lay, t) {
      BoundaryNotInside(a, lay, t);
    } else {
      NoBoundaryIsInside(a, lay, t);
    }
  }

  lemma {:induction false} DirectTargetCollected(c: seq<Byte>, s: nat, ip: nat, t: int)
    requires Steps(c, s, ip) && ip < |c| && t in DirectTargets(c, ip)
    ensures t in TargetsFrom(c, s)
    decreases |c| - s
  {
    StepsForward(c, s, ip);
    if s != ip {
      DirectTargetCollected(c, s + CanonLen(c[s]), ip, t);
    }
  }

  /** What the emitter guarantees about a chunk: whole instructions, and jumps to
      instruction starts, none of them into the middle of a loop header or increment. */
  ghost predicate JumpsAreSound(c: Chunk, a: Input, lay: Layout) {
    && Whole(c.code, 0)
    && forall t :: t in TargetsFrom(c.code, 0) ==>
         0 <= t <= |c.code| && Steps(c.code, 0, t) && !InsideUnguarded(a, lay, t)
  }

  /** The destinations of a block are among the relative targets of the chunk. */
  lemma ArmCollected(a: Input, lay: Layout, i: nat, j: nat)
    requires LaidOut(a, lay) && i < Blocks(lay) && Adjacent(a, lay, i) && j < |a.ArmsAt(lay.starts[i])|
    ensures a.ArmsAt(lay.starts[i])[j].target in TargetsFrom(a.c, 0)
  {
    var ip := lay.starts[i];
    var t := a.ArmsAt(ip)[j].target;
    StartsReached(a, lay, i);
    if a.KindAt(ip) == LoopHeader {
      LoopJumpStart(a.c, ip);
      StepsTrans(a.c, 0, ip, ip + 43);
      assert t == DirectTargets(a.c, ip + 43)[0];
      DirectTargetCollected(a.c, 0, ip + 43, t);
    } else {
      assert t == DirectTargets(a.c, ip)[j];
      DirectTargetCollected(a.c, 0, ip, t);
    }
  }

  /** Every jump of a sound chunk goes to a boundary. */
  lemma ArmsReachBoundaries(c: Chunk, f: Flags, lay: Layout, i: nat, j: nat)
    requires var a := Input(c.code, f, Protected(c, f));
      && LaidOut(a, lay) && lay.starts[Blocks(lay)] == |c.code| && JumpsAreSound(c, a, lay)
      && i < Blocks(lay) && Adjacent(a, lay, i) && j < |a.ArmsAt(lay.starts[i])|
    ensures var a := Input(c.code, f, Protected(c, f));
      Boundary(lay, a.ArmsAt(lay.starts[i])[j].target)
  {
    var a := Input(c.code, f, Protected(c, f));
    ArmCollected(a, lay, i, j);
    TargetIsBoundary(a, lay, a.ArmsAt(lay.starts[i])[j].target);
  }

  lemma LoopJumpStart(c: seq<Byte>, ip: nat)
    requires LoopPattern(c, ip)
    ensures Steps(c, ip, ip + 43)
  {
    assert Steps(c, ip + 41, ip + 43);
    assert Steps(c, ip + 37, ip + 43);
    assert Steps(c, ip + 33, ip + 43);
    assert Steps(c, ip + 21, ip + 43);
    assert Steps(c, ip + 19, ip + 43);
    assert Steps(c, ip + 13, ip + 43);
    assert Steps(c, ip + 3, ip + 43);
  }

  /** Main relocation result: in a sound chunk every jump operand of every kind
      still fits, and lands on the translation of its canonical destination. */
  lemma RelocationIsExact(c: Chunk, f: Flags, lay: Layout, pcs: seq<nat>, body: seq<Byte>, i: nat, j: nat)
    requires var a := Input(c.code, f, Protected(c, f));
      && Translated(a, lay, pcs, body) && JumpsAreSound(c, a, lay)
      && i < Blocks(lay) && Adjacent(a, lay, i) && j < |a.ArmsAt(lay.starts[i])|
    ensures var a := Input(c.code, f, Protected(c, f));
      var arm := a.ArmsAt(lay.starts[i])[j];
      && 0 <= arm.target < |pcs| && lay.outs[i] + arm.at + 1 < |body|
      && var old_, new_ := OrigOffset(a, lay.starts[i], j), NewOffset(a, lay, body, i, j);
         && lay.outs[i] + arm.base + new_ == pcs[arm.target]
         && (old_ >= 0 ==> 0 <= new_ <= old_)
         && (old_ < 0 ==> old_ <= new_ < 0)
  {
    ArmsReachBoundaries(c, f, lay, i, j);
    JumpToBoundaryLands(Input(c.code, f, Protected(c, f)), lay, pcs, body, i, j);
  }

  /** Fusing a loop header ignores the targets, and a destination inside it is
      sent back to the start of the fused instruction. */
  lemma TargetInsideLoopIsLost(a: Input, lay: Layout, pcs: seq<nat>, body: seq<Byte>, i: nat, t: nat, others: set<int>)
    requires Translated(a, lay, pcs, body) && i < Blocks(lay) && Adjacent(a, lay, i)
    requires a.KindAt(lay.starts[i]) == LoopHeader && lay.starts[i] < t < lay.starts[i + 1]
    ensures Classify(a.c, a.f, others, lay.starts[i]) == LoopHeader
    ensures pcs[t] == pcs[lay.starts[i]] == lay.outs[i]
  {
    assert MappedBlock(lay, pcs, i);
  }
}
