/**
 The bytecode optimizer: pattern recognition with superinstruction fusion
 (pass 1), re-patching of every relative jump (pass 2), and the sentinel HALT.
 Field inline caches and the call lowering of pass 3 are switched off.
 */
module Optimizer {
  import opened Bytes
  import opened Vm

  datatype Flags = Flags(locals: bool, loopFusion: bool, superinstructions: bool)

  /** Code plus every absolute entry point: function table and method tables. */
  datatype Chunk = Chunk(code: seq<Byte>, functionTable: seq<nat>, methodEntries: seq<nat>)

  // ------------------------------------------------- barriers, jump targets

  predicate IsBarrier(op: int) {
    op == OP_CALL || op == OP_CALL_FAST_0 || op == OP_CALL_FAST_1 || op == OP_INVOKE_METHOD
    || op == OP_INVOKE_METHOD_IC || op == OP_CALL_INDIRECT || op == OP_CLOSURE || op == OP_RET
    || op == OP_RET_FAST || op == OP_NEW_INSTANCE || op == OP_NEW_ARRAY || op == OP_TRY
    || op == OP_THROW || op == OP_POP_TRY || op == OP_BRANCH_3 || op == OP_HALT
  }

  /** Jump destinations written in the instruction at `ip`, as canonical offsets. */
  function DirectTargets(code: seq<Byte>, ip: nat): seq<int>
    requires ip < |code|
  {
    var op := code[ip];
    if (op == OP_JUMP || op == OP_JUMP_IF_FALSE || op == OP_TRY) && ip + 2 < |code| then
      [ip + 3 + Offset(code, ip + 1)]
    else if op == OP_BRANCH_3 && ip + 6 < |code| then
      [ip + 3 + Offset(code, ip + 1), ip + 5 + Offset(code, ip + 3), ip + 7 + Offset(code, ip + 5)]
    else []
  }

  function Elements(s: seq<int>): (r: set<int>)
  {
    set x | x in s
  }

  function TargetsFrom(code: seq<Byte>, ip: nat): set<int>
    decreases |code| - ip
  {
    if ip >= |code| then {} else Elements(DirectTargets(code, ip)) + TargetsFrom(code, ip + CanonLen(code[ip]))
  }

  function EntryPoints(c: Chunk): set<int> {
    (set e | e in c.functionTable) + (set e | e in c.methodEntries)
  }

  function JumpTargets(c: Chunk): set<int> {
    EntryPoints(c) + TargetsFrom(c.code, 0)
  }

  method InsertAll(entries: seq<nat>, targets: set<int>) returns (r: set<int>)
    ensures r == targets + set e | e in entries
  {
    r := targets;
    for i := 0 to |entries|
      invariant r == targets + set e | e in entries[..i]
    {
      r := r + {entries[i]};
    }
    assert entries[..|entries|] == entries;
  }

  /** The three arms of a BRANCH_3, each relative to the end of its own operand. */
  method InsertBranchArms(code: seq<Byte>, ip: nat, targets: set<int>) returns (r: set<int>)
    requires ip + 6 < |code| && code[ip] == OP_BRANCH_3
    ensures r == targets + Elements(DirectTargets(code, ip))
  {
    r := targets;
    ghost var arms := DirectTargets(code, ip);
    for arm := 0 to 3
      invariant r == targets + Elements(arms[..arm])
    {
      var off := Offset(code, ip + 1 + arm * 2);
      var relBase := if arm == 0 then ip + 3 else if arm == 1 then ip + 5 else ip + 7;
      assert arms[arm] == relBase + off;
      assert Elements(arms[..arm + 1]) == Elements(arms[..arm]) + {relBase + off};
      r := r + {relBase + off};
    }
    assert arms[..3] == arms;
  }

  method InsertDirect(code: seq<Byte>, ip: nat, targets: set<int>) returns (r: set<int>)
    requires ip < |code|
    ensures r == targets + Elements(DirectTargets(code, ip))
  {
    var op := code[ip];
    r := targets;
    if op == OP_JUMP || op == OP_JUMP_IF_FALSE || op == OP_TRY {
      if ip + 2 < |code| {
        r := r + {ip + 3 + Offset(code, ip + 1)};
      }
    } else if op == OP_BRANCH_3 && ip + 6 < |code| {
      r := InsertBranchArms(code, ip, targets);
    }
  }

  method CollectJumpTargets(c: Chunk) returns (targets: set<int>)
    ensures targets == JumpTargets(c)
  {
    targets := InsertAll(c.functionTable, {});
    targets := InsertAll(c.methodEntries, targets);
    var ip := 0;
    while ip < |c.code|
      invariant targets + TargetsFrom(c.code, ip) == JumpTargets(c)
    {
      targets := InsertDirect(c.code, ip, targets);
      ip := ip + CanonLen(c.code[ip]);
    }
  }

  /** The walk of `can_fuse_range` from one instruction start to `end`. */
  predicate FuseWalk(code: seq<Byte>, ip: nat, end: nat, first: bool, targets: set<int>)
    requires end <= |code|
    decreases end - ip
  {
    if ip >= end then ip == end
    else
      && (first || (ip !in targets && !IsBarrier(code[ip])))
      && FuseWalk(code, ip + CanonLen(code[ip]), end, false, targets)
  }

  predicate CanFuse(code: seq<Byte>, start: nat, end: nat, targets: set<int>) {
    end <= |code| && start < end && FuseWalk(code, start, end, true, targets)
  }

  method CanFuseRange(code: seq<Byte>, start: nat, end: nat, targets: set<int>) returns (ok: bool)
    ensures ok == CanFuse(code, start, end, targets)
  {
    if end > |code| || start >= end {
      return false;
    }
    var ip := start;
    var isFirst := true;
    while ip < end
      invariant FuseWalk(code, start, end, true, targets) == FuseWalk(code, ip, end, isFirst, targets)
    {
      if !isFirst {
        if ip in targets {
          return false;
        }
        if IsBarrier(code[ip]) {
          return false;
        }
      }
      isFirst := false;
      ip := ip + CanonLen(code[ip]);
    }
    return ip == end;
  }

  // --------------------------------------------------------------- patterns

  /** What pass 1 decides at an instruction start. */
  datatype Kind = LoopHeader | MulAddA | MulAddB | AddStore | Increment | StorePop | LoadLoad
                | LoadSmall | StoreSmall | Copy

  predicate LoopPattern(c: seq<Byte>, ip: nat) {
    ip + 46 <= |c|
    && c[ip] == OP_LOAD_LOCAL && c[ip + 3] == OP_PUSH_INT && c[ip + 12] == OP_GT
    && c[ip + 13] == OP_LOAD_LOCAL && c[ip + 16] == OP_LOAD_LOCAL && c[ip + 19] == OP_LT
    && c[ip + 20] == OP_TERNARY_MIN && c[ip + 21] == OP_LOAD_LOCAL && c[ip + 24] == OP_PUSH_INT
    && c[ip + 33] == OP_LT && c[ip + 34] == OP_LOAD_LOCAL && c[ip + 37] == OP_LOAD_LOCAL
    && c[ip + 40] == OP_GT && c[ip + 41] == OP_TERNARY_MIN && c[ip + 42] == OP_TERNARY_MAX
    && c[ip + 43] == OP_JUMP_IF_FALSE
  }

  predicate MulAddAPattern(c: seq<Byte>, ip: nat) {
    ip + 15 <= |c|
    && c[ip] == OP_LOAD_LOCAL && c[ip + 3] == OP_LOAD_LOCAL && c[ip + 6] == OP_MUL
    && c[ip + 7] == OP_LOAD_LOCAL && c[ip + 10] == OP_ADD && c[ip + 11] == OP_STORE_LOCAL && c[ip + 14] == OP_POP
  }

  predicate MulAddBPattern(c: seq<Byte>, ip: nat) {
    ip + 15 <= |c|
    && c[ip] == OP_LOAD_LOCAL && c[ip + 3] == OP_LOAD_LOCAL && c[ip + 6] == OP_LOAD_LOCAL
    && c[ip + 9] == OP_MUL && c[ip + 10] == OP_ADD && c[ip + 11] == OP_STORE_LOCAL && c[ip + 14] == OP_POP
  }

  predicate AddStorePattern(c: seq<Byte>, ip: nat) {
    ip + 11 <= |c|
    && c[ip] == OP_LOAD_LOCAL && c[ip + 3] == OP_LOAD_LOCAL && c[ip + 6] == OP_ADD
    && c[ip + 7] == OP_STORE_LOCAL && c[ip + 10] == OP_POP
  }

  predicate IncrementPattern(c: seq<Byte>, ip: nat) {
    ip + 16 <= |c|
    && c[ip] == OP_LOAD_LOCAL && c[ip + 3] == OP_PUSH_INT && c[ip + 12] == OP_ADD && c[ip + 13] == OP_STORE_LOCAL
    && Slot(c, ip + 1) == Slot(c, ip + 14) && FitsInt16(I64(c, ip + 4))
  }

  predicate StorePopPattern(c: seq<Byte>, ip: nat) {
    ip + 4 <= |c| && c[ip] == OP_STORE_LOCAL && c[ip + 3] == OP_POP
  }

  predicate LoadLoadPattern(c: seq<Byte>, ip: nat) {
    ip + 6 <= |c| && c[ip] == OP_LOAD_LOCAL && c[ip + 3] == OP_LOAD_LOCAL
  }

  predicate SmallSlot(c: seq<Byte>, ip: nat) {
    ip + 2 < |c| && Slot(c, ip + 1) <= 3
  }

  function Classify(c: seq<Byte>, f: Flags, targets: set<int>, ip: nat): Kind
    requires ip < |c|
  {
    if f.loopFusion && LoopPattern(c, ip) then LoopHeader
    else if f.superinstructions && MulAddAPattern(c, ip) && CanFuse(c, ip, ip + 15, targets) then MulAddA
    else if f.superinstructions && MulAddBPattern(c, ip) && CanFuse(c, ip, ip + 15, targets) then MulAddB
    else if f.superinstructions && AddStorePattern(c, ip) && CanFuse(c, ip, ip + 11, targets) then AddStore
    else if f.locals && IncrementPattern(c, ip) then Increment
    else if f.superinstructions && StorePopPattern(c, ip) && CanFuse(c, ip, ip + 4, targets) then StorePop
    else if f.superinstructions && LoadLoadPattern(c, ip) && CanFuse(c, ip, ip + 6, targets) then LoadLoad
    else if f.locals && c[ip] == OP_LOAD_LOCAL && SmallSlot(c, ip) then LoadSmall
    else if f.locals && c[ip] == OP_STORE_LOCAL && SmallSlot(c, ip) then StoreSmall
    else Copy
  }

  /** Canonical bytes consumed by a block. */
  function SrcLen(c: seq<Byte>, ip: nat, k: Kind): (n: nat)
    requires ip < |c|
    ensures n >= 1
  {
    match k
    case LoopHeader => 46
    case MulAddA => 15
    case MulAddB => 15
    case AddStore => 11
    case Increment => 16
    case StorePop => 4
    case LoadLoad => 6
    case LoadSmall => 3
    case StoreSmall => 3
    case Copy => CanonLen(c[ip])
  }

  /** A relative operand inside a block: the canonical destination, where the
      operand starts in the emitted block and where its base is. */
  datatype Arm = Arm(target: int, at: nat, base: nat)

  function Arms(c: seq<Byte>, ip: nat, k: Kind): seq<Arm>
    requires ip < |c| && ip + SrcLen(c, ip, k) <= |c|
  {
    if k == LoopHeader then [Arm(ip + 46 + Offset(c, ip + 44), 7, 9)]
    else if k != Copy then []
    else if c[ip] == OP_JUMP || c[ip] == OP_JUMP_IF_FALSE || c[ip] == OP_TRY then
      [Arm(ip + 3 + Offset(c, ip + 1), 1, 3)]
    else if c[ip] == OP_BRANCH_3 then
      [Arm(ip + 3 + Offset(c, ip + 1), 1, 3), Arm(ip + 5 + Offset(c, ip + 3), 3, 5), Arm(ip + 7 + Offset(c, ip + 5), 5, 7)]
    else []
  }

  /** Whether the operands the block reads are there and have the shape `Classify` asked for. */
  predicate Fits(c: seq<Byte>, ip: nat, k: Kind) {
    && ip < |c| && ip + SrcLen(c, ip, k) <= |c|
    && (k == LoadSmall || k == StoreSmall ==> SmallSlot(c, ip))
    && (k == Increment ==> IncrementPattern(c, ip))
  }

  function EmitLen(c: seq<Byte>, ip: nat, k: Kind): nat
    requires Fits(c, ip, k)
  {
    match k
    case LoopHeader => 9
    case MulAddA => 9
    case MulAddB => 9
    case AddStore => 7
    case Increment => 5
    case StorePop => if Slot(c, ip + 1) <= 3 then 1 else 3
    case LoadLoad => 5
    case LoadSmall => 1
    case StoreSmall => 1
    case Copy => CanonLen(c[ip])
  }

  /** The block a pattern is translated to, its relative operands given. */
  function Emit(c: seq<Byte>, ip: nat, k: Kind, rel: seq<int>): (e: seq<Byte>)
    requires Fits(c, ip, k) && |rel| == |Arms(c, ip, k)|
    ensures |e| == EmitLen(c, ip, k)
  {
    match k
    case LoopHeader =>
      [OP_LOOP_RANGE_FAST] + Word(Slot(c, ip + 14)) + Word(Slot(c, ip + 17)) + Word(Slot(c, ip + 1)) + Word(rel[0])
    case MulAddA =>
      [OP_FUSED_MUL_ADD_I64] + Word(Slot(c, ip + 1)) + Word(Slot(c, ip + 4)) + Word(Slot(c, ip + 8)) + Word(Slot(c, ip + 12))
    case MulAddB =>
      [OP_FUSED_MUL_ADD_I64] + Word(Slot(c, ip + 4)) + Word(Slot(c, ip + 7)) + Word(Slot(c, ip + 1)) + Word(Slot(c, ip + 12))
    case AddStore =>
      [OP_FUSED_ADD_LOCAL_LOCAL_STORE] + Word(Slot(c, ip + 1)) + Word(Slot(c, ip + 4)) + Word(Slot(c, ip + 8))
    case Increment => [OP_INCR_LOCAL_IMM] + Word(Slot(c, ip + 1)) + Word(I64(c, ip + 4))
    case StorePop =>
      if Slot(c, ip + 1) <= 3 then [OP_STORE_LOCAL_0_POP + Slot(c, ip + 1)]
      else [OP_STORE_LOCAL_POP] + Word(Slot(c, ip + 1))
    case LoadLoad => [OP_LOAD_LOAD_LOCAL] + Word(Slot(c, ip + 1)) + Word(Slot(c, ip + 4))
    case LoadSmall => [OP_LOAD_LOCAL_0 + Slot(c, ip + 1)]
    case StoreSmall => [OP_STORE_LOCAL_0 + Slot(c, ip + 1)]
    case Copy =>
      if |rel| == 1 then [c[ip]] + Word(rel[0])
      else if |rel| == 3 then [c[ip]] + Word(rel[0]) + Word(rel[1]) + Word(rel[2])
      else c[ip..ip + CanonLen(c[ip])]
  }

  // ------------------------------------------------------ well-formed chunks

  /** From `ip` on, the code is a sequence of whole canonical instructions. */
  predicate Whole(c: seq<Byte>, ip: nat)
    decreases |c| - ip
  {
    ip == |c| || (ip < |c| && !SuperOp(c[ip]) && ip + CanonLen(c[ip]) <= |c| && Whole(c, ip + CanonLen(c[ip])))
  }

  /** `b` is reached from `a` by stepping over whole instructions. */
  predicate Steps(c: seq<Byte>, a: nat, b: nat)
    decreases |c| - a
  {
    a == b || (a < |c| && Steps(c, a + CanonLen(c[a]), b))
  }

  lemma StepsOne(c: seq<Byte>, a: nat)
    requires a < |c|
    ensures Steps(c, a, a + CanonLen(c[a]))
  {
  }

  lemma {:induction false} StepsTrans(c: seq<Byte>, a: nat, b: nat, d: nat)
    requires Steps(c, a, b) && Steps(c, b, d)
    ensures Steps(c, a, d)
    decreases |c| - a
  {
    if a != b {
      StepsTrans(c, a + CanonLen(c[a]), b, d);
    }
  }

  lemma {:induction false} WholeAt(c: seq<Byte>, a: nat, b: nat)
    requires Whole(c, a) && Steps(c, a, b)
    ensures Whole(c, b)
    decreases |c| - a
  {
    if a != b {
      WholeAt(c, a + CanonLen(c[a]), b);
    }
  }

  lemma LoopSteps(c: seq<Byte>, ip: nat)
    requires LoopPattern(c, ip)
    ensures Steps(c, ip, ip + 46)
  {
    assert Steps(c, ip + 42, ip + 46);
    assert Steps(c, ip + 41, ip + 46);
    assert Steps(c, ip + 37, ip + 46);
    assert Steps(c, ip + 33, ip + 46);
    assert Steps(c, ip + 21, ip + 46);
    assert Steps(c, ip + 19, ip + 46);
    assert Steps(c, ip + 13, ip + 46);
    assert Steps(c, ip + 3, ip + 46);
  }

  lemma FusedSteps(c: seq<Byte>, ip: nat)
    ensures MulAddAPattern(c, ip) ==> Steps(c, ip, ip + 15)
    ensures MulAddBPattern(c, ip) ==> Steps(c, ip, ip + 15)
    ensures AddStorePattern(c, ip) ==> Steps(c, ip, ip + 11)
    ensures IncrementPattern(c, ip) ==> Steps(c, ip, ip + 16)
  {
    if MulAddAPattern(c, ip) {
      assert Steps(c, ip + 11, ip + 15);
      assert Steps(c, ip + 7, ip + 15);
      assert Steps(c, ip + 3, ip + 15);
    }
    if MulAddBPattern(c, ip) {
      assert Steps(c, ip + 11, ip + 15);
      assert Steps(c, ip + 9, ip + 15);
      assert Steps(c, ip + 3, ip + 15);
    }
    if AddStorePattern(c, ip) {
      assert Steps(c, ip + 7, ip + 11);
      assert Steps(c, ip + 3, ip + 11);
    }
    if IncrementPattern(c, ip) {
      assert Steps(c, ip + 12, ip + 16);
    }
  }

  /** A block covers whole instructions, so the next block starts at one. */
  lemma BlockSteps(c: seq<Byte>, f: Flags, targets: set<int>, ip: nat)
    requires ip < |c|
    ensures Steps(c, ip, ip + SrcLen(c, ip, Classify(c, f, targets, ip)))
  {
    FusedSteps(c, ip);
    match Classify(c, f, targets, ip)
    case LoopHeader => LoopSteps(c, ip);
    case StorePop => assert Steps(c, ip + 3, ip + 4);
    case LoadLoad => assert Steps(c, ip + 3, ip + 6);
    case _ => StepsOne(c, ip);
  }

  lemma BlockFits(c: seq<Byte>, f: Flags, targets: set<int>, ip: nat)
    requires ip < |c| && Whole(c, ip)
    ensures Fits(c, ip, Classify(c, f, targets, ip))
    ensures Whole(c, ip + SrcLen(c, ip, Classify(c, f, targets, ip)))
  {
    BlockSteps(c, f, targets, ip);
    WholeAt(c, ip, ip + SrcLen(c, ip, Classify(c, f, targets, ip)));
  }

  // ----------------------------------------------------------------- layout

  /** A jump operand to be recomputed: its place in the optimized code, its
      canonical destination and the optimized base it is relative to. */
  datatype Patch = Patch(at: nat, target: int, instEnd: nat)

  /** Where the blocks start in the canonical code and in the optimized code. */
  datatype Layout = Layout(starts: seq<nat>, outs: seq<nat>)

  /** The canonical code, the switches and the protected jump targets. */
  datatype Input = Input(c: seq<Byte>, f: Flags, targets: set<int>)
  {
    function KindAt(ip: nat): Kind
      requires ip < |c|
    {
      Classify(c, f, targets, ip)
    }

    predicate BlockAt(ip: nat) {
      ip < |c| && Fits(c, ip, KindAt(ip))
    }

    function Next(ip: nat): nat
      requires BlockAt(ip)
    {
      ip + SrcLen(c, ip, KindAt(ip))
    }

    function Size(ip: nat): nat
      requires BlockAt(ip)
    {
      EmitLen(c, ip, KindAt(ip))
    }

    function ArmsAt(ip: nat): seq<Arm>
      requires BlockAt(ip)
    {
      Arms(c, ip, KindAt(ip))
    }

    function Block(ip: nat, rel: seq<int>): (e: seq<Byte>)
      requires BlockAt(ip) && |rel| == |ArmsAt(ip)|
      ensures |e| == Size(ip)
    {
      Emit(c, ip, KindAt(ip), rel)
    }
  }

  function Zeros(n: nat): (z: seq<int>)
    ensures |z| == n && forall i :: 0 <= i < n ==> z[i] == 0
  {
    seq(n, _ => 0)
  }

  function Blocks(lay: Layout): nat {
    if lay.starts == [] then 0 else |lay.starts| - 1
  }

  /** Block `i` is one the optimizer forms, and the next one follows it on both sides. */
  predicate Adjacent(a: Input, lay: Layout, i: nat) {
    && i + 1 < |lay.starts| && i + 1 < |lay.outs|
    && a.BlockAt(lay.starts[i])
    && lay.starts[i + 1] == a.Next(lay.starts[i])
    && lay.outs[i + 1] == lay.outs[i] + a.Size(lay.starts[i])
  }

  predicate LaidOut(a: Input, lay: Layout) {
    && |lay.starts| == |lay.outs| >= 1
    && lay.starts[0] == 0 && lay.outs[0] == 0
    && forall i: nat :: i < Blocks(lay) ==> Adjacent(a, lay, i)
  }

  /** Every position of block `i` is mapped to the start of its translation. */
  predicate MappedBlock(lay: Layout, pcMap: seq<nat>, i: nat) {
    && i + 1 < |lay.starts| && i < |lay.outs|
    && lay.starts[i + 1] < |pcMap|
    && forall k :: lay.starts[i] <= k < lay.starts[i + 1] ==> pcMap[k] == lay.outs[i]
  }

  predicate Mapped(lay: Layout, pcMap: seq<nat>) {
    forall i: nat :: i < Blocks(lay) ==> MappedBlock(lay, pcMap, i)
  }

  predicate HasBytes(code: seq<Byte>, out: nat, e: seq<Byte>) {
    out + |e| <= |code| && forall q :: 0 <= q < |e| ==> code[out + q] == e[q]
  }

  function BlockPatches(arms: seq<Arm>, out: nat): (p: seq<Patch>)
    ensures |p| == |arms|
  {
    seq(|arms|, j requires 0 <= j < |arms| => Patch(out + arms[j].at, arms[j].target, out + arms[j].base))
  }

  function PatchList(a: Input, lay: Layout, n: nat): seq<Patch>
    requires LaidOut(a, lay) && n <= Blocks(lay)
  {
    if n == 0 then []
    else
      assert Adjacent(a, lay, n - 1);
      PatchList(a, lay, n - 1) + BlockPatches(a.ArmsAt(lay.starts[n - 1]), lay.outs[n - 1])
  }

  // ----------------------------------------------------------------- pass 1

  class OptimizedChunk {
    var code: seq<Byte>
    var functionTable: seq<nat>
    var methodEntries: seq<nat>

    constructor (c: Chunk)
      ensures code == [] && functionTable == c.functionTable && methodEntries == c.methodEntries
    {
      code := [];
      functionTable := c.functionTable;
      methodEntries := c.methodEntries;
    }

    method WriteByte(b: Byte)
      modifies this`code
      ensures code == old(code) + [b]
    {
      code := code + [b];
    }

    method WriteInt16(v: int)
      modifies this`code
      ensures code == old(code) + Word(v)
    {
      WriteByte(Lo(v));
      WriteByte(Hi(v));
    }

    method WriteThree(op: Byte, v0: int)
      modifies this`code
      ensures code == old(code) + ([op] + Word(v0))
    {
      WriteByte(op);
      WriteInt16(v0);
    }

    method WriteFive(op: Byte, v0: int, v1: int)
      modifies this`code
      ensures code == old(code) + ([op] + Word(v0) + Word(v1))
    {
      WriteThree(op, v0);
      WriteInt16(v1);
    }

    method WriteSeven(op: Byte, v0: int, v1: int, v2: int)
      modifies this`code
      ensures code == old(code) + ([op] + Word(v0) + Word(v1) + Word(v2))
    {
      WriteFive(op, v0, v1);
      WriteInt16(v2);
    }

    method WriteNine(op: Byte, v0: int, v1: int, v2: int, v3: int)
      modifies this`code
      ensures code == old(code) + ([op] + Word(v0) + Word(v1) + Word(v2) + Word(v3))
    {
      WriteSeven(op, v0, v1, v2);
      WriteInt16(v3);
    }

    /** The standard copy, which records relative operands instead of copying them. */
    method CopyInstruction(c: seq<Byte>, ip: nat) returns (patches: seq<Patch>)
      requires Fits(c, ip, Copy)
      modifies this`code
      ensures code == old(code) + Emit(c, ip, Copy, Zeros(|Arms(c, ip, Copy)|))
      ensures patches == BlockPatches(Arms(c, ip, Copy), |old(code)|)
    {
      var op := c[ip];
      var out := |code|;
      if op == OP_JUMP || op == OP_JUMP_IF_FALSE || op == OP_TRY {
        WriteThree(op, 0);
        patches := [Patch(out + 1, ip + 3 + Offset(c, ip + 1), out + 3)];
      } else if op == OP_BRANCH_3 {
        WriteSeven(op, 0, 0, 0);
        patches := [];
        for arm := 0 to 3
          invariant patches == BlockPatches(Arms(c, ip, Copy), out)[..arm]
        {
          var off := Offset(c, ip + 1 + arm * 2);
          var relBaseOrig := if arm == 0 then ip + 3 else if arm == 1 then ip + 5 else ip + 7;
          var relBaseOpt := if arm == 0 then out + 3 else if arm == 1 then out + 5 else out + 7;
          patches := patches + [Patch(out + 1 + 2 * arm, relBaseOrig + off, relBaseOpt)];
        }
      } else {
        patches := [];
        ghost var before := code;
        for k := 0 to CanonLen(op)
          invariant code == before + c[ip..ip + k]
        {
          WriteByte(c[ip + k]);
        }
      }
    }

    /** Emission of the superinstructions with two-byte operands throughout. */
    method TranslateLong(c: seq<Byte>, ip: nat, k: Kind) returns (patches: seq<Patch>)
      requires Fits(c, ip, k) && k in {LoopHeader, MulAddA, MulAddB, AddStore}
      modifies this`code
      ensures code == old(code) + Emit(c, ip, k, Zeros(|Arms(c, ip, k)|))
      ensures patches == BlockPatches(Arms(c, ip, k), |old(code)|)
    {
      patches := [];
      match k
      case LoopHeader =>
        var out := |code|;
        WriteNine(OP_LOOP_RANGE_FAST, Slot(c, ip + 14), Slot(c, ip + 17), Slot(c, ip + 1), 0);
        patches := [Patch(out + 7, ip + 46 + Offset(c, ip + 44), out + 9)];
      case MulAddA =>
        WriteNine(OP_FUSED_MUL_ADD_I64, Slot(c, ip + 1), Slot(c, ip + 4), Slot(c, ip + 8), Slot(c, ip + 12));
      case MulAddB =>
        WriteNine(OP_FUSED_MUL_ADD_I64, Slot(c, ip + 4), Slot(c, ip + 7), Slot(c, ip + 1), Slot(c, ip + 12));
      case AddStore =>
        WriteSeven(OP_FUSED_ADD_LOCAL_LOCAL_STORE, Slot(c, ip + 1), Slot(c, ip + 4), Slot(c, ip + 8));
    }

    /** Emission of the block for an instruction start of the given kind. */
    method Translate(c: seq<Byte>, ip: nat, k: Kind) returns (patches: seq<Patch>)
      requires Fits(c, ip, k)
      modifies this`code
      ensures code == old(code) + Emit(c, ip, k, Zeros(|Arms(c, ip, k)|))
      ensures patches == BlockPatches(Arms(c, ip, k), |old(code)|)
    {
      patches := [];
      match k
      case Increment =>
        WriteFive(OP_INCR_LOCAL_IMM, Slot(c, ip + 1), I64(c, ip + 4));
      case StorePop =>
        var slot := Slot(c, ip + 1);
        if slot <= 3 {
          WriteByte(OP_STORE_LOCAL_0_POP + slot);
        } else {
          WriteThree(OP_STORE_LOCAL_POP, slot);
        }
      case LoadLoad => WriteFive(OP_LOAD_LOAD_LOCAL, Slot(c, ip + 1), Slot(c, ip + 4));
      case LoadSmall => WriteByte(OP_LOAD_LOCAL_0 + Slot(c, ip + 1));
      case StoreSmall => WriteByte(OP_STORE_LOCAL_0 + Slot(c, ip + 1));
      case Copy => patches := CopyInstruction(c, ip);
      case _ => patches := TranslateLong(c, ip, k);
    }
  }

  /** The chain of pattern tests at one instruction start, in the order pass 1 tries them. */
  method Recognise(c: seq<Byte>, f: Flags, targets: set<int>, ip: nat) returns (k: Kind)
    requires ip < |c|
    ensures k == Classify(c, f, targets, ip)
  {
    if f.loopFusion && LoopPattern(c, ip) {
      return LoopHeader;
    }
    if f.superinstructions {
      var ok := CanFuseRange(c, ip, ip + 15, targets);
      if MulAddAPattern(c, ip) && ok {
        return MulAddA;
      }
      if MulAddBPattern(c, ip) && ok {
        return MulAddB;
      }
      ok := CanFuseRange(c, ip, ip + 11, targets);
      if AddStorePattern(c, ip) && ok {
        return AddStore;
      }
    }
    if f.locals && IncrementPattern(c, ip) {
      return Increment;
    }
    if f.superinstructions {
      var ok := CanFuseRange(c, ip, ip + 4, targets);
      if StorePopPattern(c, ip) && ok {
        return StorePop;
      }
      ok := CanFuseRange(c, ip, ip + 6, targets);
      if LoadLoadPattern(c, ip) && ok {
        return LoadLoad;
      }
    }
    if f.locals && ip + 2 < |c| && Slot(c, ip + 1) <= 3 {
      if c[ip] == OP_LOAD_LOCAL {
        return LoadSmall;
      }
      if c[ip] == OP_STORE_LOCAL {
        return StoreSmall;
      }
    }
    return Copy;
  }
}
