/**
 Which instructions are fused, and into which bytes, read off the chunk and off what the
 passes leave: the opcodes that stand there, the switches, and whether control can come
 to an inner instruction from elsewhere.
 */
module FusionLaws {
  import opened Bytes
  import opened Vm
  import opened Optimizer
  import opened Passes
  import opened Relocation

  // ------------------------------------------------------------ what stands there

  /** From the `j`-th on, whole instructions with these opcodes stand at `ip`. */
  predicate Reads(c: seq<Byte>, ip: nat, ops: seq<int>, j: nat)
    decreases |ops| - j
  {
    j >= |ops| || (ip < |c| && c[ip] == ops[j] && ip + CanonLen(ops[j]) <= |c| && Reads(c, ip + CanonLen(ops[j]), ops, j + 1))
  }

  const HEADER := [OP_LOAD_LOCAL, OP_PUSH_INT, OP_GT, OP_LOAD_LOCAL, OP_LOAD_LOCAL, OP_LT, OP_TERNARY_MIN,
                   OP_LOAD_LOCAL, OP_PUSH_INT, OP_LT, OP_LOAD_LOCAL, OP_LOAD_LOCAL, OP_GT, OP_TERNARY_MIN,
                   OP_TERNARY_MAX, OP_JUMP_IF_FALSE]
  const MUL_ADD_A := [OP_LOAD_LOCAL, OP_LOAD_LOCAL, OP_MUL, OP_LOAD_LOCAL, OP_ADD, OP_STORE_LOCAL, OP_POP]
  const MUL_ADD_B := [OP_LOAD_LOCAL, OP_LOAD_LOCAL, OP_LOAD_LOCAL, OP_MUL, OP_ADD, OP_STORE_LOCAL, OP_POP]
  const ADD_STORE := [OP_LOAD_LOCAL, OP_LOAD_LOCAL, OP_ADD, OP_STORE_LOCAL, OP_POP]
  const INCREMENT := [OP_LOAD_LOCAL, OP_PUSH_INT, OP_ADD, OP_STORE_LOCAL]
  const STORE_POP := [OP_STORE_LOCAL, OP_POP]
  const LOAD_LOAD := [OP_LOAD_LOCAL, OP_LOAD_LOCAL]

  /** The instruction at `ip` can send control to `p`, by a jump, an arm or a handler. */
  predicate GoesTo(c: seq<Byte>, ip: nat, p: int)
    requires ip < |c| && ip + OptLen(c[ip]) <= |c|
  {
    match Decode(c, ip)
    case Jump(off) => p == ip + 3 + off
    case JumpIfFalse(off) => p == ip + 3 + off
    case Try(off) => p == ip + 3 + off
    case Branch3(neg, zero, pos) => p == ip + 3 + neg || p == ip + 5 + zero || p == ip + 7 + pos
    case _ => false
  }

  /** Control can come to `p` otherwise than from the instruction before: an entry or a destination. */
  ghost predicate Entered(c: Chunk, p: int) {
    || p in c.functionTable || p in c.methodEntries
    || exists ip: nat :: Sends(c.code, ip, p)
  }

  ghost predicate Sends(c: seq<Byte>, ip: nat, p: int) {
    Steps(c, 0, ip) && ip < |c| && ip + OptLen(c[ip]) <= |c| && GoesTo(c, ip, p)
  }

  lemma DirectIff(c: seq<Byte>, ip: nat, p: int)
    requires ip < |c| && !SuperOp(c[ip]) && ip + CanonLen(c[ip]) <= |c|
    ensures p in DirectTargets(c, ip) <==> GoesTo(c, ip, p)
  {
  }

  lemma {:induction false} TargetHasSender(c: seq<Byte>, s: nat, p: int) returns (ip: nat)
    requires Whole(c, s) && Steps(c, 0, s) && p in TargetsFrom(c, s)
    ensures Sends(c, ip, p)
    decreases |c| - s
  {
    DirectIff(c, s, p);
    if p in DirectTargets(c, s) {
      ip := s;
    } else {
      StepsOne(c, s);
      StepsTrans(c, 0, s, s + CanonLen(c[s]));
      ip := TargetHasSender(c, s + CanonLen(c[s]), p);
    }
  }

  /** The collected targets are exactly the entries and the destinations of all instructions. */
  lemma TargetsIff(c: Chunk, p: int)
    requires Whole(c.code, 0)
    ensures p in JumpTargets(c) <==> Entered(c, p)
  {
    if p in TargetsFrom(c.code, 0) {
      var ip := TargetHasSender(c.code, 0, p);
    }
    if ip: nat :| Sends(c.code, ip, p) {
      WholeAt(c.code, 0, ip);
      DirectIff(c.code, ip, p);
      DirectTargetCollected(c.code, 0, ip, p);
    }
  }

  // -------------------------------------------------------------- can_fuse_range

  /** An instruction start strictly between, at which fusion must not go on. */
  ghost predicate Stops(c: seq<Byte>, p: nat, targets: set<int>) {
    p < |c| && (p in targets || IsBarrier(c[p]))
  }

  ghost predicate NoneStops(c: seq<Byte>, ip: nat, from: nat, end: nat, targets: set<int>) {
    forall p: nat {:trigger Stops(c, p, targets)} :: from <= p < end && Steps(c, ip, p) ==> !Stops(c, p, targets)
  }

  lemma {:induction false} FuseWalkIff(c: seq<Byte>, ip: nat, end: nat, first: bool, targets: set<int>)
    requires ip <= end <= |c|
    ensures FuseWalk(c, ip, end, first, targets) <==>
      Steps(c, ip, end) && NoneStops(c, ip, if first then ip + 1 else ip, end, targets)
    decreases end - ip
  {
    if ip < end {
      var next := ip + CanonLen(c[ip]);
      StepsOne(c, ip);
      if next <= end {
        FuseWalkIff(c, next, end, false, targets);
        FuseWalkStep(c, ip, next, end, first, targets);
      } else {
        NotPast(c, ip, end);
      }
    }
  }

  lemma NotPast(c: seq<Byte>, ip: nat, end: nat)
    requires ip < |c| && ip < end < ip + CanonLen(c[ip])
    ensures !Steps(c, ip, end)
  {
    if Steps(c, ip, end) {
      StepsForward(c, ip, end);
    }
  }

  /** Stepping on from `ip` is being there or stepping on from the next instruction. */
  lemma StepsOn(c: seq<Byte>, ip: nat, p: nat)
    requires ip < |c|
    ensures Steps(c, ip, p) <==> p == ip || Steps(c, ip + CanonLen(c[ip]), p)
    ensures Steps(c, ip + CanonLen(c[ip]), p) ==> p > ip
  {
    if Steps(c, ip + CanonLen(c[ip]), p) {
      StepsForward(c, ip + CanonLen(c[ip]), p);
    }
  }

  lemma FuseWalkStep(c: seq<Byte>, ip: nat, next: nat, end: nat, first: bool, targets: set<int>)
    requires ip < next <= end <= |c| && next == ip + CanonLen(c[ip])
    ensures NoneStops(c, ip, if first then ip + 1 else ip, end, targets)
       <==> (first || !Stops(c, ip, targets)) && NoneStops(c, next, next, end, targets)
    ensures Steps(c, ip, end) <==> Steps(c, next, end)
  {
    StepsOn(c, ip, end);
    forall p: nat {:trigger Stops(c, p, targets)} ensures Steps(c, ip, p) <==> p == ip || Steps(c, next, p)
      ensures Steps(c, next, p) ==> next <= p
    {
      StepsOn(c, ip, p);
      if Steps(c, next, p) {
        StepsForward(c, next, p);
      }
    }
  }

  /** A range is fused exactly when it is whole instructions and none of them but the first is a
      target or a barrier. */
  lemma CanFuseIff(c: seq<Byte>, start: nat, end: nat, targets: set<int>)
    ensures CanFuse(c, start, end, targets) <==>
      end <= |c| && start < end && Steps(c, start, end) && NoneStops(c, start, start + 1, end, targets)
  {
    if end <= |c| && start < end {
      FuseWalkIff(c, start, end, true, targets);
    }
  }

  // ---------------------------------------------------------------- what is fused

  /** Bytes of these instructions. */
  function Span(ops: seq<int>, j: nat): nat
    decreases |ops| - j
  {
    if j >= |ops| then 0 else CanonLen(ops[j]) + Span(ops, j + 1)
  }

  lemma {:induction false} ReadsSteps(c: seq<Byte>, ip: nat, ops: seq<int>, j: nat)
    requires Reads(c, ip, ops, j)
    ensures Steps(c, ip, ip + Span(ops, j)) && (j < |ops| ==> ip + Span(ops, j) <= |c|)
    decreases |ops| - j
  {
    if j < |ops| {
      ReadsSteps(c, ip + CanonLen(ops[j]), ops, j + 1);
      StepsOn(c, ip, ip + Span(ops, j));
    }
  }

  lemma {:induction false} ReadsInside(c: seq<Byte>, ip: nat, ops: seq<int>, j: nat, p: nat)
    requires Reads(c, ip, ops, j) && Steps(c, ip, p) && p < ip + Span(ops, j)
    ensures p < |c| && exists k :: j <= k < |ops| && ops[k] == c[p]
    decreases |ops| - j
  {
    if j < |ops| && p != ip {
      StepsOn(c, ip, p);
      ReadsInside(c, ip + CanonLen(ops[j]), ops, j + 1, p);
    } else {
      StepsForward(c, ip, p);
      assert j < |ops| ==> ops[j] == c[p];
    }
  }

  /** Control comes to none of the instructions between from elsewhere. */
  ghost predicate Free(c: Chunk, from: nat, to: nat) {
    forall p: nat {:trigger Entered(c, p)} :: from < p < to && Steps(c.code, from, p) ==> !Entered(c, p)
  }

  predicate NoBarrier(ops: seq<int>) {
    forall k :: 0 <= k < |ops| ==> !IsBarrier(ops[k])
  }

  lemma RangeIff(c: Chunk, ip: nat, ops: seq<int>, len: nat)
    requires Whole(c.code, 0) && Reads(c.code, ip, ops, 0) && len == Span(ops, 0) > 0 && NoBarrier(ops)
    ensures CanFuse(c.code, ip, ip + len, JumpTargets(c)) <==> Free(c, ip, ip + len)
  {
    ReadsSteps(c.code, ip, ops, 0);
    CanFuseIff(c.code, ip, ip + len, JumpTargets(c));
    forall p: nat | ip < p < ip + len && Steps(c.code, ip, p)
      ensures Stops(c.code, p, JumpTargets(c)) <==> Entered(c, p)
    {
      ReadsInside(c.code, ip, ops, 0, p);
      TargetsIff(c, p);
    }
  }

  ghost predicate FusesHeader(c: Chunk, f: Flags, ip: nat) {
    f.loopFusion && Reads(c.code, ip, HEADER, 0)
  }

  ghost predicate FusesMulAddA(c: Chunk, f: Flags, ip: nat) {
    f.superinstructions && Reads(c.code, ip, MUL_ADD_A, 0) && Free(c, ip, ip + 15)
  }

  ghost predicate FusesMulAddB(c: Chunk, f: Flags, ip: nat) {
    f.superinstructions && Reads(c.code, ip, MUL_ADD_B, 0) && Free(c, ip, ip + 15)
  }

  ghost predicate FusesAddStore(c: Chunk, f: Flags, ip: nat) {
    f.superinstructions && Reads(c.code, ip, ADD_STORE, 0) && Free(c, ip, ip + 11)
  }

  /** An increment is of one slot, by a constant of 16 bits; it is fused with the local-slot forms,
      whatever control comes inside. */
  ghost predicate FusesIncrement(c: Chunk, f: Flags, ip: nat) {
    && f.locals && Reads(c.code, ip, INCREMENT, 0) && ip + 16 <= |c.code|
    && c.code[ip + 1] == c.code[ip + 14] && c.code[ip + 2] == c.code[ip + 15] && -32768 <= I64(c.code, ip + 4) <= 32767
  }

  ghost predicate FusesStorePop(c: Chunk, f: Flags, ip: nat) {
    f.superinstructions && Reads(c.code, ip, STORE_POP, 0) && Free(c, ip, ip + 4)
  }

  /** Two loads are fused unless they begin a longer pattern that is. */
  ghost predicate FusesLoadLoad(c: Chunk, f: Flags, ip: nat) {
    && f.superinstructions && Reads(c.code, ip, LOAD_LOAD, 0) && Free(c, ip, ip + 6)
    && !FusesMulAddA(c, f, ip) && !FusesMulAddB(c, f, ip) && !FusesAddStore(c, f, ip)
  }

  ghost predicate FusesLonger(c: Chunk, f: Flags, ip: nat) {
    || FusesHeader(c, f, ip) || FusesMulAddA(c, f, ip) || FusesMulAddB(c, f, ip) || FusesAddStore(c, f, ip)
    || FusesIncrement(c, f, ip) || FusesStorePop(c, f, ip) || FusesLoadLoad(c, f, ip)
  }

  /** A load or store of one of the slots 0 to 3 that is not part of a longer form. */
  ghost predicate Shortens(c: Chunk, f: Flags, ip: nat, op: int) {
    && f.locals && ip + 3 <= |c.code| && c.code[ip] == op && c.code[ip + 1] <= 3 && c.code[ip + 2] == 0
    && !FusesLonger(c, f, ip)
  }

  lemma HeaderIff(c: seq<Byte>, ip: nat)
    ensures Reads(c, ip, HEADER, 0) <==> LoopPattern(c, ip)
  {
    assert Reads(c, ip + 46, HEADER, 16);
    assert Reads(c, ip + 43, HEADER, 15) <==> ip + 46 <= |c| && c[ip + 43] == OP_JUMP_IF_FALSE;
    assert Reads(c, ip + 42, HEADER, 14) <==> Reads(c, ip + 43, HEADER, 15) && c[ip + 42] == OP_TERNARY_MAX;
    assert Reads(c, ip + 41, HEADER, 13) <==> Reads(c, ip + 42, HEADER, 14) && c[ip + 41] == OP_TERNARY_MIN;
    assert Reads(c, ip + 40, HEADER, 12) <==> Reads(c, ip + 41, HEADER, 13) && c[ip + 40] == OP_GT;
    assert Reads(c, ip + 37, HEADER, 11) <==> Reads(c, ip + 40, HEADER, 12) && c[ip + 37] == OP_LOAD_LOCAL;
    assert Reads(c, ip + 34, HEADER, 10) <==> Reads(c, ip + 37, HEADER, 11) && c[ip + 34] == OP_LOAD_LOCAL;
    assert Reads(c, ip + 33, HEADER, 9) <==> Reads(c, ip + 34, HEADER, 10) && c[ip + 33] == OP_LT;
    assert Reads(c, ip + 24, HEADER, 8) <==> Reads(c, ip + 33, HEADER, 9) && c[ip + 24] == OP_PUSH_INT;
    assert Reads(c, ip + 21, HEADER, 7) <==> Reads(c, ip + 24, HEADER, 8) && c[ip + 21] == OP_LOAD_LOCAL;
    assert Reads(c, ip + 20, HEADER, 6) <==> Reads(c, ip + 21, HEADER, 7) && c[ip + 20] == OP_TERNARY_MIN;
    assert Reads(c, ip + 19, HEADER, 5) <==> Reads(c, ip + 20, HEADER, 6) && c[ip + 19] == OP_LT;
    assert Reads(c, ip + 16, HEADER, 4) <==> Reads(c, ip + 19, HEADER, 5) && c[ip + 16] == OP_LOAD_LOCAL;
    assert Reads(c, ip + 13, HEADER, 3) <==> Reads(c, ip + 16, HEADER, 4) && c[ip + 13] == OP_LOAD_LOCAL;
    assert Reads(c, ip + 12, HEADER, 2) <==> Reads(c, ip + 13, HEADER, 3) && c[ip + 12] == OP_GT;
    assert Reads(c, ip + 3, HEADER, 1) <==> Reads(c, ip + 12, HEADER, 2) && c[ip + 3] == OP_PUSH_INT;
  }

  lemma MulAddAIff(c: seq<Byte>, ip: nat)
    ensures Reads(c, ip, MUL_ADD_A, 0) <==> MulAddAPattern(c, ip)
    ensures Span(MUL_ADD_A, 0) == 15 && NoBarrier(MUL_ADD_A)
  {
    assert Span(MUL_ADD_A, 7) == 0;
    assert Span(MUL_ADD_A, 6) == 1;
    assert Span(MUL_ADD_A, 5) == 4;
    assert Span(MUL_ADD_A, 4) == 5;
    assert Span(MUL_ADD_A, 3) == 8;
    assert Span(MUL_ADD_A, 2) == 9;
    assert Span(MUL_ADD_A, 1) == 12;
    assert Reads(c, ip + 15, MUL_ADD_A, 7);
    assert Reads(c, ip + 14, MUL_ADD_A, 6) <==> ip + 15 <= |c| && c[ip + 14] == OP_POP;
    assert Reads(c, ip + 11, MUL_ADD_A, 5) <==> Reads(c, ip + 14, MUL_ADD_A, 6) && c[ip + 11] == OP_STORE_LOCAL;
    assert Reads(c, ip + 10, MUL_ADD_A, 4) <==> Reads(c, ip + 11, MUL_ADD_A, 5) && c[ip + 10] == OP_ADD;
    assert Reads(c, ip + 7, MUL_ADD_A, 3) <==> Reads(c, ip + 10, MUL_ADD_A, 4) && c[ip + 7] == OP_LOAD_LOCAL;
    assert Reads(c, ip + 6, MUL_ADD_A, 2) <==> Reads(c, ip + 7, MUL_ADD_A, 3) && c[ip + 6] == OP_MUL;
    assert Reads(c, ip + 3, MUL_ADD_A, 1) <==> Reads(c, ip + 6, MUL_ADD_A, 2) && c[ip + 3] == OP_LOAD_LOCAL;
  }

  lemma MulAddBIff(c: seq<Byte>, ip: nat)
    ensures Reads(c, ip, MUL_ADD_B, 0) <==> MulAddBPattern(c, ip)
    ensures Span(MUL_ADD_B, 0) == 15 && NoBarrier(MUL_ADD_B)
  {
    assert Span(MUL_ADD_B, 7) == 0;
    assert Span(MUL_ADD_B, 6) == 1;
    assert Span(MUL_ADD_B, 5) == 4;
    assert Span(MUL_ADD_B, 4) == 5;
    assert Span(MUL_ADD_B, 3) == 6;
    assert Span(MUL_ADD_B, 2) == 9;
    assert Span(MUL_ADD_B, 1) == 12;
    assert Reads(c, ip + 15, MUL_ADD_B, 7);
    assert Reads(c, ip + 14, MUL_ADD_B, 6) <==> ip + 15 <= |c| && c[ip + 14] == OP_POP;
    assert Reads(c, ip + 11, MUL_ADD_B, 5) <==> Reads(c, ip + 14, MUL_ADD_B, 6) && c[ip + 11] == OP_STORE_LOCAL;
    assert Reads(c, ip + 10, MUL_ADD_B, 4) <==> Reads(c, ip + 11, MUL_ADD_B, 5) && c[ip + 10] == OP_ADD;
    assert Reads(c, ip + 9, MUL_ADD_B, 3) <==> Reads(c, ip + 10, MUL_ADD_B, 4) && c[ip + 9] == OP_MUL;
    assert Reads(c, ip + 6, MUL_ADD_B, 2) <==> Reads(c, ip + 9, MUL_ADD_B, 3) && c[ip + 6] == OP_LOAD_LOCAL;
    assert Reads(c, ip + 3, MUL_ADD_B, 1) <==> Reads(c, ip + 6, MUL_ADD_B, 2) && c[ip + 3] == OP_LOAD_LOCAL;
  }

  lemma AddStoreIff(c: seq<Byte>, ip: nat)
    ensures Reads(c, ip, ADD_STORE, 0) <==> AddStorePattern(c, ip)
    ensures Span(ADD_STORE, 0) == 11 && NoBarrier(ADD_STORE)
  {
    assert Span(ADD_STORE, 5) == 0;
    assert Span(ADD_STORE, 4) == 1;
    assert Span(ADD_STORE, 3) == 4;
    assert Span(ADD_STORE, 2) == 5;
    assert Span(ADD_STORE, 1) == 8;
    assert Reads(c, ip + 11, ADD_STORE, 5);
    assert Reads(c, ip + 10, ADD_STORE, 4) <==> ip + 11 <= |c| && c[ip + 10] == OP_POP;
    assert Reads(c, ip + 7, ADD_STORE, 3) <==> Reads(c, ip + 10, ADD_STORE, 4) && c[ip + 7] == OP_STORE_LOCAL;
    assert Reads(c, ip + 6, ADD_STORE, 2) <==> Reads(c, ip + 7, ADD_STORE, 3) && c[ip + 6] == OP_ADD;
    assert Reads(c, ip + 3, ADD_STORE, 1) <==> Reads(c, ip + 6, ADD_STORE, 2) && c[ip + 3] == OP_LOAD_LOCAL;
  }

  lemma IncrementIff(c: seq<Byte>, ip: nat)
    ensures Reads(c, ip, INCREMENT, 0) <==>
      && ip + 16 <= |c| && c[ip] == OP_LOAD_LOCAL && c[ip + 3] == OP_PUSH_INT
      && c[ip + 12] == OP_ADD && c[ip + 13] == OP_STORE_LOCAL
  {
    assert Reads(c, ip + 16, INCREMENT, 4);
    assert Reads(c, ip + 13, INCREMENT, 3) <==> ip + 16 <= |c| && c[ip + 13] == OP_STORE_LOCAL;
    assert Reads(c, ip + 12, INCREMENT, 2) <==> Reads(c, ip + 13, INCREMENT, 3) && c[ip + 12] == OP_ADD;
    assert Reads(c, ip + 3, INCREMENT, 1) <==> Reads(c, ip + 12, INCREMENT, 2) && c[ip + 3] == OP_PUSH_INT;
  }

  lemma StorePopIff(c: seq<Byte>, ip: nat)
    ensures Reads(c, ip, STORE_POP, 0) <==> StorePopPattern(c, ip)
    ensures Span(STORE_POP, 0) == 4 && NoBarrier(STORE_POP)
  {
    assert Span(STORE_POP, 2) == 0;
    assert Span(STORE_POP, 1) == 1;
    assert Reads(c, ip + 4, STORE_POP, 2);
    assert Reads(c, ip + 3, STORE_POP, 1) <==> ip + 4 <= |c| && c[ip + 3] == OP_POP;
  }

  lemma LoadLoadIff(c: seq<Byte>, ip: nat)
    ensures Reads(c, ip, LOAD_LOAD, 0) <==> LoadLoadPattern(c, ip)
    ensures Span(LOAD_LOAD, 0) == 6 && NoBarrier(LOAD_LOAD)
  {
    assert Span(LOAD_LOAD, 2) == 0;
    assert Span(LOAD_LOAD, 1) == 3;
    assert Reads(c, ip + 6, LOAD_LOAD, 2);
    assert Reads(c, ip + 3, LOAD_LOAD, 1) <==> ip + 6 <= |c| && c[ip + 3] == OP_LOAD_LOCAL;
  }

  lemma HeaderKind(c: Chunk, f: Flags, ip: nat)
    requires ip < |c.code|
    ensures Classify(c.code, f, Protected(c, f), ip) == LoopHeader <==> FusesHeader(c, f, ip)
  {
    HeaderIff(c.code, ip);
  }

  /** The three longer superinstructions. */
  lemma LongKinds(c: Chunk, f: Flags, ip: nat)
    requires Whole(c.code, 0) && ip < |c.code|
    ensures var k := Classify(c.code, f, Protected(c, f), ip);
      && (k == MulAddA <==> FusesMulAddA(c, f, ip))
      && (k == MulAddB <==> FusesMulAddB(c, f, ip))
      && (k == AddStore <==> FusesAddStore(c, f, ip))
  {
    MulAddAIff(c.code, ip);
    MulAddBIff(c.code, ip);
    AddStoreIff(c.code, ip);
    if MulAddAPattern(c.code, ip) {
      RangeIff(c, ip, MUL_ADD_A, 15);
    } else if MulAddBPattern(c.code, ip) {
      RangeIff(c, ip, MUL_ADD_B, 15);
    } else if AddStorePattern(c.code, ip) {
      RangeIff(c, ip, ADD_STORE, 11);
    }
  }

  lemma SameSlot(c: seq<Byte>, ip: nat, iq: nat)
    requires ip + 2 <= |c| && iq + 2 <= |c|
    ensures Slot(c, ip) == Slot(c, iq) <==> c[ip] == c[iq] && c[ip + 1] == c[iq + 1]
    ensures Slot(c, ip) <= 3 <==> c[ip] <= 3 && c[ip + 1] == 0
  {
  }

  lemma ShortKinds(c: Chunk, f: Flags, ip: nat)
    requires Whole(c.code, 0) && ip < |c.code|
    ensures var k := Classify(c.code, f, Protected(c, f), ip);
      && (k == Increment <==> FusesIncrement(c, f, ip))
      && (k == StorePop <==> FusesStorePop(c, f, ip))
      && (k == LoadLoad <==> FusesLoadLoad(c, f, ip))
  {
    LongKinds(c, f, ip);
    IncrementIff(c.code, ip);
    StorePopIff(c.code, ip);
    LoadLoadIff(c.code, ip);
    if ip + 16 <= |c.code| {
      SameSlot(c.code, ip + 1, ip + 14);
    }
    if StorePopPattern(c.code, ip) {
      RangeIff(c, ip, STORE_POP, 4);
    } else if LoadLoadPattern(c.code, ip) {
      RangeIff(c, ip, LOAD_LOAD, 6);
    }
  }

  /** The chain of tests picks at every instruction what the opcodes there, the switches and the
      entries and destinations of the chunk say. */
  lemma KindIff(c: Chunk, f: Flags, ip: nat)
    requires Whole(c.code, 0) && ip < |c.code|
    ensures var k := Classify(c.code, f, Protected(c, f), ip);
      && (k == LoopHeader <==> FusesHeader(c, f, ip))
      && (k == MulAddA <==> FusesMulAddA(c, f, ip))
      && (k == MulAddB <==> FusesMulAddB(c, f, ip))
      && (k == AddStore <==> FusesAddStore(c, f, ip))
      && (k == Increment <==> FusesIncrement(c, f, ip))
      && (k == StorePop <==> FusesStorePop(c, f, ip))
      && (k == LoadLoad <==> FusesLoadLoad(c, f, ip))
      && (k == LoadSmall <==> Shortens(c, f, ip, OP_LOAD_LOCAL))
      && (k == StoreSmall <==> Shortens(c, f, ip, OP_STORE_LOCAL))
  {
    HeaderKind(c, f, ip);
    LongKinds(c, f, ip);
    ShortKinds(c, f, ip);
    if ip + 3 <= |c.code| {
      SameSlot(c.code, ip + 1, ip + 1);
    }
  }

  // ------------------------------------------------------------ the bytes it becomes

  /** A translated block begins at `ip`: nothing before it has the same place in the output. */
  predicate BlockStart(pcs: seq<nat>, ip: nat) {
    ip + 1 < |pcs| && (ip == 0 || pcs[ip] != pcs[ip - 1])
  }

  /** The `len` bytes at `ip` are mapped to one place, and what follows to `size` bytes later. */
  predicate Covers(pcs: seq<nat>, ip: nat, len: nat, size: nat) {
    ip + len < |pcs| && (forall k :: ip <= k < ip + len ==> pcs[k] == pcs[ip]) && pcs[ip + len] == pcs[ip] + size
  }

  /** The `len` bytes at `ip` have become exactly these. */
  predicate Becomes(pcs: seq<nat>, body: seq<Byte>, ip: nat, len: nat, e: seq<Byte>) {
    ip < |pcs| && HasBytes(body, pcs[ip], e) && Covers(pcs, ip, len, |e|)
  }

  lemma StartIsBlock(a: Input, lay: Layout, pcs: seq<nat>, body: seq<Byte>, ip: nat) returns (i: nat)
    requires Translated(a, lay, pcs, body) && BlockStart(pcs, ip)
    ensures i < Blocks(lay) && Adjacent(a, lay, i) && lay.starts[i] == ip && lay.outs[i] == pcs[ip]
  {
    i := BlockOf(a, lay, ip, Blocks(lay));
    assert Adjacent(a, lay, i) && MappedBlock(lay, pcs, i);
    BoundaryMapped(a, lay, pcs, body, i);
  }

  lemma BlockIsStart(a: Input, lay: Layout, pcs: seq<nat>, body: seq<Byte>, i: nat)
    requires Translated(a, lay, pcs, body) && i < Blocks(lay)
    ensures BlockStart(pcs, lay.starts[i])
  {
    LayoutOrder(a, lay, i, Blocks(lay));
    BoundaryMapped(a, lay, pcs, body, i);
    if i > 0 {
      LayoutOrder(a, lay, i - 1, i);
      assert MappedBlock(lay, pcs, i - 1);
    }
  }

  /** Blocks begin where the output moves on, and every position up to the end belongs to one. */
  lemma BlockStartIff(a: Input, lay: Layout, pcs: seq<nat>, body: seq<Byte>, ip: nat)
    requires Translated(a, lay, pcs, body) && ip < |a.c|
    ensures BlockStart(pcs, ip) <==> exists i: nat :: i < Blocks(lay) && lay.starts[i] == ip
  {
    if BlockStart(pcs, ip) {
      var i := StartIsBlock(a, lay, pcs, body, ip);
    }
    if i: nat :| i < Blocks(lay) && lay.starts[i] == ip {
      BlockIsStart(a, lay, pcs, body, i);
    }
  }

  lemma BlockBecomes(a: Input, lay: Layout, pcs: seq<nat>, body: seq<Byte>, ip: nat) returns (rel: seq<int>)
    requires Translated(a, lay, pcs, body) && BlockStart(pcs, ip)
    ensures a.BlockAt(ip) && |rel| == |a.ArmsAt(ip)|
    ensures Becomes(pcs, body, ip, SrcLen(a.c, ip, a.KindAt(ip)), a.Block(ip, rel))
  {
    var i := StartIsBlock(a, lay, pcs, body, ip);
    rel := RelOf(a.ArmsAt(ip), lay.outs[i], pcs, |body|);
    assert BlockDone(a, lay, body, pcs, i) && MappedBlock(lay, pcs, i);
    BoundaryMapped(a, lay, pcs, body, i + 1);
  }

  /** What the two passes leave of a chunk of whole instructions. */
  ghost predicate Left(c: Chunk, f: Flags, lay: Layout, pcs: seq<nat>, body: seq<Byte>) {
    Whole(c.code, 0) && Translated(Input(c.code, f, Protected(c, f)), lay, pcs, body)
  }

  lemma SlotBytes(c: seq<Byte>, at: nat)
    requires at + 2 <= |c|
    ensures Word(Slot(c, at)) == [c[at], c[at + 1]]
  {
    LowWord(Slot(c, at), c[at], c[at + 1], 0);
  }

  lemma ImmediateBytes(c: seq<Byte>, at: nat)
    requires at + 8 <= |c| && -32768 <= I64(c, at) <= 32767
    ensures Word(I64(c, at)) == [c[at], c[at + 1]]
  {
    I64Is(c, at);
    var b2: int, b3: int, b4: int, b5: int, b6: int, b7: int := c[at + 2], c[at + 3], c[at + 4], c[at + 5], c[at + 6], c[at + 7];
    var high := b2 + 256 * (b3 + 256 * (b4 + 256 * (b5 + 256 * (b6 + 256 * b7))))
                - (if b7 >= 128 then 0x1_0000_0000_0000 else 0);
    LowWord(I64(c, at), c[at], c[at + 1], high);
  }

  lemma LowWord(v: int, lo: Byte, hi: Byte, high: int)
    requires v == lo + 256 * (hi + 256 * high)
    ensures v % 256 == lo && (v / 256) % 256 == hi
    ensures Lo(v) == lo && Hi(v) == hi
  {
  }

  lemma MulAddABytes(c: seq<Byte>, ip: nat)
    requires Fits(c, ip, MulAddA)
    ensures Emit(c, ip, MulAddA, []) == [OP_FUSED_MUL_ADD_I64, c[ip + 1], c[ip + 2], c[ip + 4], c[ip + 5],
                                         c[ip + 8], c[ip + 9], c[ip + 12], c[ip + 13]]
  {
    SlotBytes(c, ip + 1);
    SlotBytes(c, ip + 4);
    SlotBytes(c, ip + 8);
    SlotBytes(c, ip + 12);
  }

  lemma MulAddBBytes(c: seq<Byte>, ip: nat)
    requires Fits(c, ip, MulAddB)
    ensures Emit(c, ip, MulAddB, []) == [OP_FUSED_MUL_ADD_I64, c[ip + 4], c[ip + 5], c[ip + 7], c[ip + 8],
                                         c[ip + 1], c[ip + 2], c[ip + 12], c[ip + 13]]
  {
    SlotBytes(c, ip + 1);
    SlotBytes(c, ip + 4);
    SlotBytes(c, ip + 7);
    SlotBytes(c, ip + 12);
  }

  lemma AddStoreBytes(c: seq<Byte>, ip: nat)
    requires Fits(c, ip, AddStore)
    ensures Emit(c, ip, AddStore, []) == [OP_FUSED_ADD_LOCAL_LOCAL_STORE, c[ip + 1], c[ip + 2], c[ip + 4],
                                          c[ip + 5], c[ip + 8], c[ip + 9]]
  {
    SlotBytes(c, ip + 1);
    SlotBytes(c, ip + 4);
    SlotBytes(c, ip + 8);
  }

  lemma ShortBytes(c: seq<Byte>, ip: nat, k: Kind)
    requires Fits(c, ip, k)
    ensures k == Increment ==> Emit(c, ip, k, []) == [OP_INCR_LOCAL_IMM, c[ip + 1], c[ip + 2], c[ip + 4], c[ip + 5]]
    ensures k == LoadLoad ==> Emit(c, ip, k, []) == [OP_LOAD_LOAD_LOCAL, c[ip + 1], c[ip + 2], c[ip + 4], c[ip + 5]]
    ensures k == StorePop ==> Emit(c, ip, k, []) == if c[ip + 1] <= 3 && c[ip + 2] == 0 then [OP_STORE_LOCAL_0_POP + c[ip + 1]]
                                                    else [OP_STORE_LOCAL_POP, c[ip + 1], c[ip + 2]]
  {
    match k
    case Increment =>
      SlotBytes(c, ip + 1);
      ImmediateBytes(c, ip + 4);
    case LoadLoad =>
      SlotBytes(c, ip + 1);
      SlotBytes(c, ip + 4);
    case StorePop =>
      SlotBytes(c, ip + 1);
      SameSlot(c, ip + 1, ip + 1);
    case _ =>
  }

  lemma HeaderBytes(c: seq<Byte>, ip: nat, rel: int)
    requires Fits(c, ip, LoopHeader)
    ensures Emit(c, ip, LoopHeader, [rel]) == [OP_LOOP_RANGE_FAST, c[ip + 14], c[ip + 15], c[ip + 17], c[ip + 18],
                                               c[ip + 1], c[ip + 2]] + Word(rel)
  {
    SlotBytes(c, ip + 14);
    SlotBytes(c, ip + 17);
    SlotBytes(c, ip + 1);
  }

  /** A block without relative operands, its kind known. */
  lemma KindBecomes(c: Chunk, f: Flags, lay: Layout, pcs: seq<nat>, body: seq<Byte>, ip: nat, k: Kind)
    requires Left(c, f, lay, pcs, body) && BlockStart(pcs, ip)
    requires ip < |c.code| && Classify(c.code, f, Protected(c, f), ip) == k && k != Copy && k != LoopHeader
    ensures Fits(c.code, ip, k) && Becomes(pcs, body, ip, SrcLen(c.code, ip, k), Emit(c.code, ip, k, []))
  {
    var rel := BlockBecomes(Input(c.code, f, Protected(c, f)), lay, pcs, body, ip);
    assert rel == [];
  }

  /** a * b + c into d, in the order a, b, c: its four slots become one instruction of nine bytes. */
  lemma MulAddFused(c: Chunk, f: Flags, lay: Layout, pcs: seq<nat>, body: seq<Byte>, ip: nat)
    requires Left(c, f, lay, pcs, body) && BlockStart(pcs, ip)
    requires f.superinstructions && Reads(c.code, ip, MUL_ADD_A, 0) && Free(c, ip, ip + 15)
    ensures ip + 15 <= |c.code|
    ensures Becomes(pcs, body, ip, 15, [OP_FUSED_MUL_ADD_I64, c.code[ip + 1], c.code[ip + 2], c.code[ip + 4], c.code[ip + 5],
                                        c.code[ip + 8], c.code[ip + 9], c.code[ip + 12], c.code[ip + 13]])
  {
    MulAddAIff(c.code, ip);
    KindIff(c, f, ip);
    KindBecomes(c, f, lay, pcs, body, ip, MulAddA);
    MulAddABytes(c.code, ip);
  }

  /** The other order, c first. */
  lemma AddMulFused(c: Chunk, f: Flags, lay: Layout, pcs: seq<nat>, body: seq<Byte>, ip: nat)
    requires Left(c, f, lay, pcs, body) && BlockStart(pcs, ip)
    requires f.superinstructions && Reads(c.code, ip, MUL_ADD_B, 0) && Free(c, ip, ip + 15)
    ensures ip + 15 <= |c.code|
    ensures Becomes(pcs, body, ip, 15, [OP_FUSED_MUL_ADD_I64, c.code[ip + 4], c.code[ip + 5], c.code[ip + 7], c.code[ip + 8],
                                        c.code[ip + 1], c.code[ip + 2], c.code[ip + 12], c.code[ip + 13]])
  {
    MulAddBIff(c.code, ip);
    KindIff(c, f, ip);
    KindBecomes(c, f, lay, pcs, body, ip, MulAddB);
    MulAddBBytes(c.code, ip);
  }

  lemma AddStoreFused(c: Chunk, f: Flags, lay: Layout, pcs: seq<nat>, body: seq<Byte>, ip: nat)
    requires Left(c, f, lay, pcs, body) && BlockStart(pcs, ip)
    requires f.superinstructions && Reads(c.code, ip, ADD_STORE, 0) && Free(c, ip, ip + 11)
    ensures ip + 11 <= |c.code|
    ensures Becomes(pcs, body, ip, 11, [OP_FUSED_ADD_LOCAL_LOCAL_STORE, c.code[ip + 1], c.code[ip + 2], c.code[ip + 4],
                                        c.code[ip + 5], c.code[ip + 8], c.code[ip + 9]])
  {
    AddStoreIff(c.code, ip);
    KindIff(c, f, ip);
    KindBecomes(c, f, lay, pcs, body, ip, AddStore);
    AddStoreBytes(c.code, ip);
  }

  /** One byte for the slots 0 to 3, three for the others. */
  lemma StorePopFused(c: Chunk, f: Flags, lay: Layout, pcs: seq<nat>, body: seq<Byte>, ip: nat)
    requires Left(c, f, lay, pcs, body) && BlockStart(pcs, ip)
    requires f.superinstructions && Reads(c.code, ip, STORE_POP, 0) && Free(c, ip, ip + 4)
    ensures ip + 4 <= |c.code|
    ensures Becomes(pcs, body, ip, 4, if c.code[ip + 1] <= 3 && c.code[ip + 2] == 0 then [OP_STORE_LOCAL_0_POP + c.code[ip + 1]]
                                      else [OP_STORE_LOCAL_POP, c.code[ip + 1], c.code[ip + 2]])
  {
    StorePopIff(c.code, ip);
    KindIff(c, f, ip);
    KindBecomes(c, f, lay, pcs, body, ip, StorePop);
    ShortBytes(c.code, ip, StorePop);
  }

  lemma LoadLoadFused(c: Chunk, f: Flags, lay: Layout, pcs: seq<nat>, body: seq<Byte>, ip: nat)
    requires Left(c, f, lay, pcs, body) && BlockStart(pcs, ip) && FusesLoadLoad(c, f, ip)
    ensures ip + 6 <= |c.code|
    ensures Becomes(pcs, body, ip, 6, [OP_LOAD_LOAD_LOCAL, c.code[ip + 1], c.code[ip + 2], c.code[ip + 4], c.code[ip + 5]])
  {
    LoadLoadIff(c.code, ip);
    KindIff(c, f, ip);
    KindBecomes(c, f, lay, pcs, body, ip, LoadLoad);
    ShortBytes(c.code, ip, LoadLoad);
  }

  lemma IncrementFused(c: Chunk, f: Flags, lay: Layout, pcs: seq<nat>, body: seq<Byte>, ip: nat)
    requires Left(c, f, lay, pcs, body) && BlockStart(pcs, ip) && FusesIncrement(c, f, ip)
    ensures Becomes(pcs, body, ip, 16, [OP_INCR_LOCAL_IMM, c.code[ip + 1], c.code[ip + 2], c.code[ip + 4], c.code[ip + 5]])
  {
    KindIff(c, f, ip);
    KindBecomes(c, f, lay, pcs, body, ip, Increment);
    ShortBytes(c.code, ip, Increment);
  }

  /** The head of a range loop: variable, stop and step, and then two bytes for its exit. */
  lemma HeaderFused(c: Chunk, f: Flags, lay: Layout, pcs: seq<nat>, body: seq<Byte>, ip: nat)
    requires Left(c, f, lay, pcs, body) && BlockStart(pcs, ip) && f.loopFusion && Reads(c.code, ip, HEADER, 0)
    ensures ip + 46 <= |c.code| && Covers(pcs, ip, 46, 9)
    ensures HasBytes(body, pcs[ip], [OP_LOOP_RANGE_FAST, c.code[ip + 14], c.code[ip + 15], c.code[ip + 17], c.code[ip + 18],
                                     c.code[ip + 1], c.code[ip + 2]])
  {
    HeaderIff(c.code, ip);
    KindIff(c, f, ip);
    var rel := BlockBecomes(Input(c.code, f, Protected(c, f)), lay, pcs, body, ip);
    assert rel == [rel[0]];
    HeaderBytes(c.code, ip, rel[0]);
    FirstBytes(body, pcs[ip], [OP_LOOP_RANGE_FAST, c.code[ip + 14], c.code[ip + 15], c.code[ip + 17], c.code[ip + 18],
                               c.code[ip + 1], c.code[ip + 2]], Word(rel[0]));
  }

  lemma FirstBytes(code: seq<Byte>, out: nat, e: seq<Byte>, more: seq<Byte>)
    requires HasBytes(code, out, e + more)
    ensures HasBytes(code, out, e)
  {
    forall q | 0 <= q < |e| ensures code[out + q] == e[q] {
      assert (e + more)[q] == e[q];
    }
  }

  /** Loads and stores of the slots 0 to 3 that no longer form takes are one byte. */
  lemma SmallSlotShortened(c: Chunk, f: Flags, lay: Layout, pcs: seq<nat>, body: seq<Byte>, ip: nat)
    requires Left(c, f, lay, pcs, body) && BlockStart(pcs, ip)
    ensures Shortens(c, f, ip, OP_LOAD_LOCAL) ==> Becomes(pcs, body, ip, 3, [OP_LOAD_LOCAL_0 + c.code[ip + 1]])
    ensures Shortens(c, f, ip, OP_STORE_LOCAL) ==> Becomes(pcs, body, ip, 3, [OP_STORE_LOCAL_0 + c.code[ip + 1]])
  {
    KindIff(c, f, ip);
    if Shortens(c, f, ip, OP_LOAD_LOCAL) {
      KindBecomes(c, f, lay, pcs, body, ip, LoadSmall);
      SameSlot(c.code, ip + 1, ip + 1);
    }
    if Shortens(c, f, ip, OP_STORE_LOCAL) {
      KindBecomes(c, f, lay, pcs, body, ip, StoreSmall);
      SameSlot(c.code, ip + 1, ip + 1);
    }
  }

  /** Every other instruction stays, with its own opcode; its operands, unless they are
      relative, stay too. */
  lemma OthersCopied(c: Chunk, f: Flags, lay: Layout, pcs: seq<nat>, body: seq<Byte>, ip: nat)
    requires Left(c, f, lay, pcs, body) && BlockStart(pcs, ip) && ip < |c.code| && !FusesLonger(c, f, ip)
    requires !Shortens(c, f, ip, OP_LOAD_LOCAL) && !Shortens(c, f, ip, OP_STORE_LOCAL)
    ensures ip + CanonLen(c.code[ip]) <= |c.code| && pcs[ip] + CanonLen(c.code[ip]) <= |body|
    ensures Becomes(pcs, body, ip, CanonLen(c.code[ip]), [c.code[ip]] + body[pcs[ip] + 1..pcs[ip] + CanonLen(c.code[ip])])
    ensures c.code[ip] !in {OP_JUMP, OP_JUMP_IF_FALSE, OP_TRY, OP_BRANCH_3} ==>
      Becomes(pcs, body, ip, CanonLen(c.code[ip]), c.code[ip..ip + CanonLen(c.code[ip])])
  {
    var a := Input(c.code, f, Protected(c, f));
    var rel := BlockBecomes(a, lay, pcs, body, ip);
    KindIff(c, f, ip);
    var e := a.Block(ip, rel);
    assert e[0] == c.code[ip];
  }

  lemma KindOpcode(c: seq<Byte>, ip: nat, k: Kind, rel: seq<int>)
    requires Fits(c, ip, k) && |rel| == |Arms(c, ip, k)| && !SuperOp(c[ip])
    ensures var op := Emit(c, ip, k, rel)[0];
      && (op == OP_LOOP_RANGE_FAST <==> k == LoopHeader)
      && (op == OP_FUSED_MUL_ADD_I64 <==> k == MulAddA || k == MulAddB)
      && (op == OP_FUSED_ADD_LOCAL_LOCAL_STORE <==> k == AddStore)
      && (op == OP_INCR_LOCAL_IMM <==> k == Increment)
      && (OP_STORE_LOCAL_POP <= op <= OP_STORE_LOCAL_0_POP + 3 <==> k == StorePop)
      && (op == OP_LOAD_LOAD_LOCAL <==> k == LoadLoad)
      && (OP_LOAD_LOCAL_0 <= op <= OP_LOAD_LOCAL_0 + 3 <==> k == LoadSmall)
      && (OP_STORE_LOCAL_0 <= op <= OP_STORE_LOCAL_0 + 3 <==> k == StoreSmall)
  {
  }

  /** Every fused opcode stands exactly where the chunk and the switches ask for it. */
  lemma FusedIff(c: Chunk, f: Flags, lay: Layout, pcs: seq<nat>, body: seq<Byte>, ip: nat)
    requires Left(c, f, lay, pcs, body) && BlockStart(pcs, ip)
    ensures pcs[ip] < |body|
    ensures var op := body[pcs[ip]];
      && (op == OP_LOOP_RANGE_FAST <==> f.loopFusion && Reads(c.code, ip, HEADER, 0))
      && (op == OP_FUSED_MUL_ADD_I64 <==>
            f.superinstructions && (Reads(c.code, ip, MUL_ADD_A, 0) || Reads(c.code, ip, MUL_ADD_B, 0)) && Free(c, ip, ip + 15))
      && (op == OP_FUSED_ADD_LOCAL_LOCAL_STORE <==> f.superinstructions && Reads(c.code, ip, ADD_STORE, 0) && Free(c, ip, ip + 11))
      && (op == OP_INCR_LOCAL_IMM <==> FusesIncrement(c, f, ip))
      && (OP_STORE_LOCAL_POP <= op <= OP_STORE_LOCAL_0_POP + 3 <==>
            f.superinstructions && Reads(c.code, ip, STORE_POP, 0) && Free(c, ip, ip + 4))
      && (op == OP_LOAD_LOAD_LOCAL <==> FusesLoadLoad(c, f, ip))
      && (OP_LOAD_LOCAL_0 <= op <= OP_LOAD_LOCAL_0 + 3 <==> Shortens(c, f, ip, OP_LOAD_LOCAL))
      && (OP_STORE_LOCAL_0 <= op <= OP_STORE_LOCAL_0 + 3 <==> Shortens(c, f, ip, OP_STORE_LOCAL))
  {
    var a := Input(c.code, f, Protected(c, f));
    var i := StartIsBlock(a, lay, pcs, body, ip);
    StartsReached(a, lay, i);
    WholeAt(c.code, 0, ip);
    var rel := BlockBecomes(a, lay, pcs, body, ip);
    KindIff(c, f, ip);
    KindOpcode(c.code, ip, a.KindAt(ip), rel);
    assert body[pcs[ip] + 0] == a.Block(ip, rel)[0];
  }
}
