/**
 Fusion preserves meaning, and exactly where it does not: the optimized run of
 any number of steps equals the canonical run, block by block, except that a
 fused increment drops the value that the canonical code leaves on the stack
 and a fused loop header with step zero traps instead of leaving the loop.
 */
module Simulation {
  import opened Bytes
  import opened Vm
  import opened Optimizer
  import opened Passes
  import opened Relocation
  import opened BlockSemantics

  // ------------------------------------------- what a translated block decodes to

  function Translation(a: Input, ip: nat, rel: seq<int>): Instr
    requires a.BlockAt(ip) && !SuperOp(a.c[ip]) && |rel| == |a.ArmsAt(ip)|
  {
    var c := a.c;
    match a.KindAt(ip)
    case LoopHeader => LoopRangeFast(Slot(c, ip + 14), Slot(c, ip + 17), Slot(c, ip + 1), rel[0])
    case MulAddA => FusedMulAddStore(Slot(c, ip + 1), Slot(c, ip + 4), Slot(c, ip + 8), Slot(c, ip + 12))
    case MulAddB => FusedMulAddStore(Slot(c, ip + 4), Slot(c, ip + 7), Slot(c, ip + 1), Slot(c, ip + 12))
    case AddStore => FusedAddStore(Slot(c, ip + 1), Slot(c, ip + 4), Slot(c, ip + 8))
    case Increment => IncrLocalImm(Slot(c, ip + 1), I64(c, ip + 4))
    case StorePop => StoreLocalPop(Slot(c, ip + 1))
    case LoadLoad => LoadLoadLocal(Slot(c, ip + 1), Slot(c, ip + 4))
    case LoadSmall => LoadLocal(Slot(c, ip + 1))
    case StoreSmall => StoreLocal(Slot(c, ip + 1))
    case Copy => Retargeted(Decode(c, ip), rel)
  }

  /** The same instruction with new relative operands. */
  function Retargeted(i: Instr, rel: seq<int>): Instr {
    if i.Jump? && |rel| == 1 then Jump(rel[0])
    else if i.JumpIfFalse? && |rel| == 1 then JumpIfFalse(rel[0])
    else if i.Try? && |rel| == 1 then Try(rel[0])
    else if i.Branch3? && |rel| == 3 then Branch3(rel[0], rel[1], rel[2])
    else i
  }

  ghost predicate FitAll(rel: seq<int>) {
    forall j :: 0 <= j < |rel| ==> FitsInt16(rel[j])
  }

  ghost predicate DecodesTo(code: seq<Byte>, out: nat, size: nat, i: Instr) {
    out < |code| && OptLen(code[out]) == size && out + size <= |code| && Decode(code, out) == i
  }

  lemma WordAt(code: seq<Byte>, out: nat, e: seq<Byte>, at: nat, v: int)
    requires HasBytes(code, out, e) && at + 1 < |e| && e[at] == Lo(v) && e[at + 1] == Hi(v)
    ensures 0 <= v < 65536 ==> Slot(code, out + at) == v
    ensures FitsInt16(v) ==> Offset(code, out + at) == v
  {
    assert code[out + at] == e[at] && code[out + (at + 1)] == e[at + 1];
  }

  /** The opcode and the words of a block, read back from the code. */
  lemma TwoWords(code: seq<Byte>, out: nat, op: Byte, v1: int, v2: int)
    requires HasBytes(code, out, [op] + Word(v1) + Word(v2)) && 0 <= v1 < 65536
    ensures code[out] == op && Slot(code, out + 1) == v1
    ensures 0 <= v2 < 65536 ==> Slot(code, out + 3) == v2
    ensures FitsInt16(v2) ==> Offset(code, out + 3) == v2
  {
    var e := [op] + Word(v1) + Word(v2);
    assert code[out + 0] == e[0];
    WordAt(code, out, e, 1, v1);
    WordAt(code, out, e, 3, v2);
  }

  lemma FourWords(code: seq<Byte>, out: nat, op: Byte, v1: int, v2: int, v3: int, v4: int)
    requires HasBytes(code, out, [op] + Word(v1) + Word(v2) + Word(v3) + Word(v4))
    requires 0 <= v1 < 65536 && 0 <= v2 < 65536 && 0 <= v3 < 65536
    ensures code[out] == op && Slot(code, out + 1) == v1 && Slot(code, out + 3) == v2 && Slot(code, out + 5) == v3
    ensures 0 <= v4 < 65536 ==> Slot(code, out + 7) == v4
    ensures FitsInt16(v4) ==> Offset(code, out + 7) == v4
  {
    var e := [op] + Word(v1) + Word(v2) + Word(v3) + Word(v4);
    assert code[out + 0] == e[0];
    WordAt(code, out, e, 1, v1);
    WordAt(code, out, e, 3, v2);
    WordAt(code, out, e, 5, v3);
    WordAt(code, out, e, 7, v4);
  }

  lemma DecodeMulAdd(code: seq<Byte>, out: nat, a: Input, ip: nat)
    requires a.BlockAt(ip) && !SuperOp(a.c[ip]) && |a.ArmsAt(ip)| == 0 && HasBytes(code, out, a.Block(ip, []))
    requires a.KindAt(ip) in {MulAddA, MulAddB}
    ensures DecodesTo(code, out, a.Size(ip), Translation(a, ip, []))
  {
    if a.KindAt(ip) == MulAddA {
      FourWords(code, out, OP_FUSED_MUL_ADD_I64,
                Slot(a.c, ip + 1), Slot(a.c, ip + 4), Slot(a.c, ip + 8), Slot(a.c, ip + 12));
    } else {
      FourWords(code, out, OP_FUSED_MUL_ADD_I64,
                Slot(a.c, ip + 4), Slot(a.c, ip + 7), Slot(a.c, ip + 1), Slot(a.c, ip + 12));
    }
  }

  lemma DecodeAdd(code: seq<Byte>, out: nat, a: Input, ip: nat)
    requires a.BlockAt(ip) && !SuperOp(a.c[ip]) && |a.ArmsAt(ip)| == 0 && HasBytes(code, out, a.Block(ip, []))
    requires a.KindAt(ip) == AddStore
    ensures DecodesTo(code, out, a.Size(ip), Translation(a, ip, []))
  {
    DecodeThree(code, out, Slot(a.c, ip + 1), Slot(a.c, ip + 4), Slot(a.c, ip + 8));
  }

  lemma DecodeThree(code: seq<Byte>, out: nat, x: nat, y: nat, d: nat)
    requires HasBytes(code, out, [OP_FUSED_ADD_LOCAL_LOCAL_STORE] + Word(x) + Word(y) + Word(d))
    requires x < 65536 && y < 65536 && d < 65536
    ensures DecodesTo(code, out, 7, FusedAddStore(x, y, d))
  {
    var e := [OP_FUSED_ADD_LOCAL_LOCAL_STORE] + Word(x) + Word(y) + Word(d);
    assert code[out + 0] == e[0];
    WordAt(code, out, e, 1, x);
    WordAt(code, out, e, 3, y);
    WordAt(code, out, e, 5, d);
  }

  lemma DecodeIncrement(code: seq<Byte>, out: nat, a: Input, ip: nat)
    requires a.BlockAt(ip) && !SuperOp(a.c[ip]) && |a.ArmsAt(ip)| == 0 && HasBytes(code, out, a.Block(ip, []))
    requires a.KindAt(ip) == Increment
    ensures DecodesTo(code, out, a.Size(ip), Translation(a, ip, []))
  {
    TwoWords(code, out, OP_INCR_LOCAL_IMM, Slot(a.c, ip + 1), I64(a.c, ip + 4));
  }

  lemma DecodeLoop(code: seq<Byte>, out: nat, a: Input, ip: nat, rel: seq<int>)
    requires a.BlockAt(ip) && !SuperOp(a.c[ip]) && a.KindAt(ip) == LoopHeader
    requires |rel| == 1 && FitAll(rel) && HasBytes(code, out, a.Block(ip, rel))
    ensures DecodesTo(code, out, a.Size(ip), Translation(a, ip, rel))
  {
    FourWords(code, out, OP_LOOP_RANGE_FAST, Slot(a.c, ip + 14), Slot(a.c, ip + 17), Slot(a.c, ip + 1), rel[0]);
  }

  lemma DecodeShort(code: seq<Byte>, out: nat, a: Input, ip: nat)
    requires a.BlockAt(ip) && !SuperOp(a.c[ip]) && |a.ArmsAt(ip)| == 0 && HasBytes(code, out, a.Block(ip, []))
    requires a.KindAt(ip) in {StorePop, LoadLoad, LoadSmall, StoreSmall}
    ensures DecodesTo(code, out, a.Size(ip), Translation(a, ip, []))
  {
    var e := a.Block(ip, []);
    assert code[out + 0] == e[0];
    match a.KindAt(ip)
    case StorePop =>
      if Slot(a.c, ip + 1) > 3 {
        WordAt(code, out, e, 1, Slot(a.c, ip + 1));
      }
    case LoadLoad =>
      WordAt(code, out, e, 1, Slot(a.c, ip + 1));
      WordAt(code, out, e, 3, Slot(a.c, ip + 4));
    case _ =>
  }

  lemma DecodeVerbatim(code: seq<Byte>, out: nat, c: seq<Byte>, ip: nat)
    requires ip < |c| && !SuperOp(c[ip]) && ip + CanonLen(c[ip]) <= |c|
    requires HasBytes(code, out, c[ip..ip + CanonLen(c[ip])])
    ensures DecodesTo(code, out, CanonLen(c[ip]), Decode(c, ip))
  {
    var len := CanonLen(c[ip]);
    var window := c[ip..ip + len];
    assert code[out + 0] == window[0];
    assert code[out..out + len] == window;
    assert code[out + 1..out + len] == window[1..] == c[ip + 1..ip + len];
    if c[ip] == OP_PUSH_INT {
      assert code[out + 1..out + 9] == c[ip + 1..ip + 9];
    } else if len <= 3 {
      assert len > 1 ==> code[out + 1] == window[1];
      assert len > 2 ==> code[out + 2] == window[2];
    } else if c[ip] == OP_BRANCH_3 {
      assert code[out + 1] == window[1] && code[out + 2] == window[2];
      assert code[out + 3] == window[3] && code[out + 4] == window[4];
      assert code[out + 5] == window[5] && code[out + 6] == window[6];
    }
  }

  lemma DecodeCopy(code: seq<Byte>, out: nat, a: Input, ip: nat, rel: seq<int>)
    requires a.BlockAt(ip) && !SuperOp(a.c[ip])
    requires |rel| == |a.ArmsAt(ip)| && FitAll(rel) && HasBytes(code, out, a.Block(ip, rel))
    requires a.KindAt(ip) == Copy
    ensures DecodesTo(code, out, a.Size(ip), Translation(a, ip, rel))
  {
    if |rel| == 0 {
      DecodeVerbatim(code, out, a.c, ip);
    } else if |rel| == 1 {
      DecodeJump(code, out, a.c[ip], rel[0]);
    } else {
      DecodeBranch(code, out, rel[0], rel[1], rel[2]);
    }
  }

  lemma DecodeJump(code: seq<Byte>, out: nat, op: Byte, rel: int)
    requires HasBytes(code, out, [op] + Word(rel)) && FitsInt16(rel) && op in {OP_JUMP, OP_JUMP_IF_FALSE, OP_TRY}
    ensures DecodesTo(code, out, 3, if op == OP_JUMP then Jump(rel) else if op == OP_JUMP_IF_FALSE then JumpIfFalse(rel) else Try(rel))
  {
    var e := [op] + Word(rel);
    assert code[out + 0] == e[0];
    WordAt(code, out, e, 1, rel);
  }

  lemma DecodeBranch(code: seq<Byte>, out: nat, neg: int, zero: int, pos: int)
    requires HasBytes(code, out, [OP_BRANCH_3] + Word(neg) + Word(zero) + Word(pos))
    requires FitsInt16(neg) && FitsInt16(zero) && FitsInt16(pos)
    ensures DecodesTo(code, out, 7, Branch3(neg, zero, pos))
  {
    var e := [OP_BRANCH_3] + Word(neg) + Word(zero) + Word(pos);
    assert code[out + 0] == e[0];
    WordAt(code, out, e, 1, neg);
    WordAt(code, out, e, 3, zero);
    WordAt(code, out, e, 5, pos);
  }

  lemma DecodeBlock(code: seq<Byte>, out: nat, a: Input, ip: nat, rel: seq<int>)
    requires a.BlockAt(ip) && !SuperOp(a.c[ip])
    requires |rel| == |a.ArmsAt(ip)| && FitAll(rel) && HasBytes(code, out, a.Block(ip, rel))
    ensures DecodesTo(code, out, a.Size(ip), Translation(a, ip, rel))
  {
    assert |rel| == 0 ==> rel == [];
    match a.KindAt(ip)
    case Copy => DecodeCopy(code, out, a, ip, rel);
    case LoopHeader => DecodeLoop(code, out, a, ip, rel);
    case MulAddA => DecodeMulAdd(code, out, a, ip);
    case MulAddB => DecodeMulAdd(code, out, a, ip);
    case AddStore => DecodeAdd(code, out, a, ip);
    case Increment => DecodeIncrement(code, out, a, ip);
    case _ => DecodeShort(code, out, a, ip);
  }

  // ------------------------------------------------- straight-line instructions

  /** Canonical instructions in a block. */
  function Work(k: Kind): (n: nat)
    ensures n >= 1
  {
    match k
    case LoopHeader => 16
    case MulAddA => 7
    case MulAddB => 7
    case AddStore => 5
    case Increment => 4
    case StorePop => 2
    case LoadLoad => 2
    case _ => 1
  }

  /** `o'` is `o` moved to another program counter and other exception handlers. */
  ghost predicate Moved(s: State, len: nat, o: Outcome, t: State, len': nat, o': Outcome) {
    match o
    case Running(u) => u.pc == s.pc + len && u.handlers == s.handlers
                       && o' == Running(u.(pc := t.pc + len', handlers := t.handlers))
    case Halted(u) => u == s && o' == Halted(t)
    case Yield(u, op, operands) => u == s && o' == Yield(t, op, operands)
    case Underflow => o' == Underflow
    case _ => false
  }

  predicate Control(i: Instr) {
    i.Jump? || i.JumpIfFalse? || i.Branch3? || i.Try? || i.PopTry? || i.LoopRangeFast?
  }

  lemma ExecMoves(i: Instr, s: State, len: nat, t: State, len': nat)
    requires !Control(i) && t == s.(pc := t.pc, handlers := t.handlers)
    ensures Moved(s, len, Exec(i, len, s), t, len', Exec(i, len', t))
  {
  }

  lemma ExecMulAdd(x: nat, y: nat, z: nat, d: nat, t: State)
    ensures var v := AddValues(MulValues(Get(t.locals, x), Get(t.locals, y)), Get(t.locals, z));
      Exec(FusedMulAddStore(x, y, z, d), 9, t) == Running(t.(pc := t.pc + 9, locals := t.locals[d := v]))
  {
    FusedMulAddIsMulThenAdd(Get(t.locals, x), Get(t.locals, y), Get(t.locals, z));
  }

  lemma ExecAddStore(x: nat, y: nat, d: nat, t: State)
    ensures Exec(FusedAddStore(x, y, d), 7, t)
         == Running(t.(pc := t.pc + 7, locals := t.locals[d := AddValues(Get(t.locals, x), Get(t.locals, y))]))
  {
  }

  lemma StoredMoves(s: State, len: nat, o: Outcome, t: State, len': nat, o': Outcome, d: nat, v: Value)
    requires t == s.(pc := t.pc, handlers := t.handlers)
    requires o == Running(s.(pc := s.pc + len, locals := s.locals[d := v]))
    requires o' == Running(t.(pc := t.pc + len', locals := t.locals[d := v]))
    ensures Moved(s, len, o, t, len', o')
  {
  }

  lemma MulAddAMoves(c: seq<Byte>, s: State, t: State)
    requires 0 <= s.pc && MulAddAPattern(c, s.pc) && t == s.(pc := t.pc, handlers := t.handlers)
    ensures var i := FusedMulAddStore(Slot(c, s.pc + 1), Slot(c, s.pc + 4), Slot(c, s.pc + 8), Slot(c, s.pc + 12));
      Moved(s, 15, Run(c, true, s, 7), t, 9, Exec(i, 9, t))
  {
    var x, y, z, d := Slot(c, s.pc + 1), Slot(c, s.pc + 4), Slot(c, s.pc + 8), Slot(c, s.pc + 12);
    var v := AddValues(MulValues(Get(s.locals, x), Get(s.locals, y)), Get(s.locals, z));
    RunMulAddA(c, s);
    ExecMulAdd(x, y, z, d, t);
    StoredMoves(s, 15, Run(c, true, s, 7), t, 9, Exec(FusedMulAddStore(x, y, z, d), 9, t), d, v);
  }

  lemma MulAddBMoves(c: seq<Byte>, s: State, t: State)
    requires 0 <= s.pc && MulAddBPattern(c, s.pc) && t == s.(pc := t.pc, handlers := t.handlers)
    ensures var i := FusedMulAddStore(Slot(c, s.pc + 4), Slot(c, s.pc + 7), Slot(c, s.pc + 1), Slot(c, s.pc + 12));
      Moved(s, 15, Run(c, true, s, 7), t, 9, Exec(i, 9, t))
  {
    var x, y, z, d := Slot(c, s.pc + 4), Slot(c, s.pc + 7), Slot(c, s.pc + 1), Slot(c, s.pc + 12);
    var v := AddValues(MulValues(Get(s.locals, x), Get(s.locals, y)), Get(s.locals, z));
    RunMulAddB(c, s);
    ExecMulAdd(x, y, z, d, t);
    StoredMoves(s, 15, Run(c, true, s, 7), t, 9, Exec(FusedMulAddStore(x, y, z, d), 9, t), d, v);
  }

  lemma AddStoreMoves(c: seq<Byte>, s: State, t: State)
    requires 0 <= s.pc && AddStorePattern(c, s.pc) && t == s.(pc := t.pc, handlers := t.handlers)
    ensures var i := FusedAddStore(Slot(c, s.pc + 1), Slot(c, s.pc + 4), Slot(c, s.pc + 8));
      Moved(s, 11, Run(c, true, s, 5), t, 7, Exec(i, 7, t))
  {
    var x, y, d := Slot(c, s.pc + 1), Slot(c, s.pc + 4), Slot(c, s.pc + 8);
    RunAddStore(c, s);
    ExecAddStore(x, y, d, t);
    StoredMoves(s, 11, Run(c, true, s, 5), t, 7, Exec(FusedAddStore(x, y, d), 7, t),
                d, AddValues(Get(s.locals, x), Get(s.locals, y)));
  }

  lemma LoadLoadMoves(c: seq<Byte>, s: State, t: State)
    requires 0 <= s.pc && LoadLoadPattern(c, s.pc) && t == s.(pc := t.pc, handlers := t.handlers)
    ensures var i := LoadLoadLocal(Slot(c, s.pc + 1), Slot(c, s.pc + 4));
      Moved(s, 6, Run(c, true, s, 2), t, 5, Exec(i, 5, t))
  {
    RunLoadLoad(c, s);
  }

  lemma StorePopMoves(c: seq<Byte>, s: State, t: State, len': nat)
    requires 0 <= s.pc && StorePopPattern(c, s.pc) && t == s.(pc := t.pc, handlers := t.handlers)
    ensures Moved(s, 4, Run(c, true, s, 2), t, len', Exec(StoreLocalPop(Slot(c, s.pc + 1)), len', t))
  {
    if s.stack.Push? {
      RunStorePop(c, s);
    } else {
      StoreUnderflows(c, s, 2);
    }
  }

  /** Every straight-line superinstruction does what its canonical instructions do. */
  lemma FusedBlockMoves(a: Input, s: State, t: State)
    requires s.pc >= 0 && a.BlockAt(s.pc) && !SuperOp(a.c[s.pc]) && t == s.(pc := t.pc, handlers := t.handlers)
    requires a.KindAt(s.pc) in {MulAddA, MulAddB, AddStore, StorePop, LoadLoad} && |a.ArmsAt(s.pc)| == 0
    ensures Moved(s, SrcLen(a.c, s.pc, a.KindAt(s.pc)), Run(a.c, true, s, Work(a.KindAt(s.pc))),
                  t, a.Size(s.pc), Exec(Translation(a, s.pc, []), a.Size(s.pc), t))
  {
    match a.KindAt(s.pc)
    case MulAddA => MulAddAMoves(a.c, s, t);
    case MulAddB => MulAddBMoves(a.c, s, t);
    case AddStore => AddStoreMoves(a.c, s, t);
    case StorePop => StorePopMoves(a.c, s, t, a.Size(s.pc));
    case LoadLoad => LoadLoadMoves(a.c, s, t);
  }

  lemma StoreUnderflows(c: seq<Byte>, s: State, n: nat)
    requires 0 <= s.pc && s.pc + 3 <= |c| && c[s.pc] == OP_STORE_LOCAL && s.stack.Empty? && n >= 1
    ensures Run(c, true, s, n) == Underflow
  {
    assert Machine(c, true)(s) == Step(c, true, s) == Underflow;
  }

  /** One canonical instruction that does not branch, copied or shortened. */
  lemma SingleBlockMoves(a: Input, ip: nat, s: State, t: State)
    requires a.BlockAt(ip) && !SuperOp(a.c[ip]) && s.pc == ip && t == s.(pc := t.pc, handlers := t.handlers)
    requires a.KindAt(ip) in {LoadSmall, StoreSmall, Copy} && |a.ArmsAt(ip)| == 0 && !Control(Decode(a.c, ip))
    ensures Moved(s, SrcLen(a.c, ip, a.KindAt(ip)), Run(a.c, true, s, 1),
                  t, a.Size(ip), Exec(Translation(a, ip, []), a.Size(ip), t))
  {
    OneStep(a.c, s);
    ExecMoves(Decode(a.c, ip), s, CanonLen(a.c[ip]), t, a.Size(ip));
  }

  // -------------------------------------------------------- mapped states

  /** Program counters are mapped by the position map; a pending handler too. */
  datatype Place = Place(pcs: seq<nat>, size: nat)
  {
    function Pc(pc: int): nat {
      NewTarget(pcs, size, pc)
    }

    function Handlers(hs: seq<TryFrame>): (r: seq<TryFrame>)
      ensures |r| == |hs|
    {
      seq(|hs|, i requires 0 <= i < |hs| => TryFrame(Pc(hs[i].catchPc), hs[i].depth))
    }

    function State(s: State): State {
      s.(pc := Pc(s.pc), handlers := Handlers(s.handlers))
    }

    function Outcome(o: Outcome): Outcome {
      match o
      case Running(s) => Running(State(s))
      case Halted(s) => Halted(State(s))
      case Yield(s, op, operands) => Yield(State(s), op, operands)
      case ZeroStep(s) => ZeroStep(State(s))
      case Underflow => Underflow
      case Wild => Wild
    }

    lemma HandlersAppend(hs: seq<TryFrame>, h: TryFrame)
      ensures Handlers(hs + [h]) == Handlers(hs) + [TryFrame(Pc(h.catchPc), h.depth)]
    {
    }

    lemma HandlersInit(hs: seq<TryFrame>)
      requires hs != []
      ensures Handlers(hs[..|hs| - 1]) == Handlers(hs)[..|hs| - 1]
    {
    }
  }

  lemma MovedIsMapped(p: Place, s: State, len: nat, o: Outcome, len': nat, o': Outcome)
    requires Moved(s, len, o, p.State(s), len', o') && p.Pc(s.pc + len) == p.Pc(s.pc) + len'
    ensures o' == p.Outcome(o)
  {
  }

  /** A copied branch goes to the mapped destination; a copied try records the mapped handler. */
  lemma BranchIsMapped(p: Place, i: Instr, s: State, rel: seq<int>, len: nat)
    requires Control(i) && !i.LoopRangeFast?
    requires p.Pc(s.pc + len) == p.Pc(s.pc) + len
    requires i.Jump? || i.JumpIfFalse? || i.Try? ==>
      && len == 3 && |rel| == 1 && rel[0] == p.Pc(s.pc + 3 + i.off) - (p.Pc(s.pc) + 3)
    requires i.Branch3? ==>
      && len == 7 && |rel| == 3
      && rel[0] == p.Pc(s.pc + 3 + i.neg) - (p.Pc(s.pc) + 3)
      && rel[1] == p.Pc(s.pc + 5 + i.zero) - (p.Pc(s.pc) + 5)
      && rel[2] == p.Pc(s.pc + 7 + i.pos) - (p.Pc(s.pc) + 7)
    ensures Exec(Retargeted(i, rel), len, p.State(s)) == p.Outcome(Exec(i, len, s))
  {
    match i
    case Try(off) => p.HandlersAppend(s.handlers, TryFrame(s.pc + 3 + off, Depth(s.stack)));
    case PopTry =>
      if s.handlers != [] {
        p.HandlersInit(s.handlers);
      }
    case _ =>
  }

  lemma ExecHeader(v: nat, stop: nat, step: nat, off: int, t: State)
    ensures var x, y, z := AsInt(Get(t.locals, v)), AsInt(Get(t.locals, stop)), AsInt(Get(t.locals, step));
      Exec(LoopRangeFast(v, stop, step, off), 9, t)
        == if z == 0 then ZeroStep(t) else Running(t.(pc := if LoopActive(x, y, z) then t.pc + 9 else t.pc + 9 + off))
  {
  }

  /** The header result in terms of the three slots, with the run kept abstract. */
  lemma HeaderOutcome(p: Place, s: State, o: Outcome, active: bool, exit: int, rel: int)
    requires o == Running(s.(pc := if active then s.pc + 46 else exit))
    requires p.Pc(s.pc + 46) == p.Pc(s.pc) + 9 && rel == p.Pc(exit) - (p.Pc(s.pc) + 9)
    ensures var t := p.State(s);
      p.Outcome(o) == Running(t.(pc := if active then t.pc + 9 else t.pc + 9 + rel))
  {
  }

  /** The fused header goes where the 46 bytes go, unless the step is zero, when it traps. */
  lemma HeaderExec(p: Place, s: State, v: nat, stop: nat, step: nat, exit: int, rel: int, o: Outcome)
    requires p.Pc(s.pc + 46) == p.Pc(s.pc) + 9 && rel == p.Pc(exit) - (p.Pc(s.pc) + 9)
    requires var x, y, z := AsInt(Get(s.locals, v)), AsInt(Get(s.locals, stop)), AsInt(Get(s.locals, step));
      o == Running(s.(pc := if LoopActive(x, y, z) then s.pc + 46 else exit))
    ensures Exec(LoopRangeFast(v, stop, step, rel), 9, p.State(s))
        == if AsInt(Get(s.locals, step)) == 0 then ZeroStep(p.State(s)) else p.Outcome(o)
  {
    var x, y, z := AsInt(Get(s.locals, v)), AsInt(Get(s.locals, stop)), AsInt(Get(s.locals, step));
    HeaderOutcome(p, s, o, LoopActive(x, y, z), exit, rel);
    ExecHeader(v, stop, step, rel, p.State(s));
  }
}
