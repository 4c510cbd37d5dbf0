/**
 The bytecode machine, restricted to integers, booleans and nil.

 One instruction set serves both code forms: the canonical chunk and the
 in-memory optimized chunk. Instructions whose handlers are not modelled stop
 the run and hand over to the outside (`Yield`), carrying the machine state.
 */
module Vm {
  import opened Bytes

  // ---------------------------------------------------------------- opcodes

  const OP_NOP := 0x00
  const OP_PUSH_INT := 0x01
  const OP_PUSH_TRYTE := 0x02
  const OP_PUSH_TAFPU := 0x03
  const OP_PUSH_FLOAT := 0x04
  const OP_PUSH_STRING := 0x05
  const OP_PUSH_BOOL := 0x06
  const OP_POP := 0x07
  const OP_DUP := 0x08
  const OP_LOAD_LOCAL := 0x10
  const OP_STORE_LOCAL := 0x11
  const OP_LOAD_GLOBAL := 0x12
  const OP_STORE_GLOBAL := 0x13
  const OP_ADD := 0x20
  const OP_SUB := 0x21
  const OP_MUL := 0x22
  const OP_NEG := 0x24
  const OP_TERNARY_MIN := 0x27
  const OP_TERNARY_MAX := 0x28
  const OP_EQ := 0x30
  const OP_NEQ := 0x31
  const OP_LT := 0x32
  const OP_LE := 0x33
  const OP_GT := 0x34
  const OP_GE := 0x35
  const OP_JUMP := 0x50
  const OP_JUMP_IF_FALSE := 0x51
  const OP_BRANCH_3 := 0x52
  const OP_CALL := 0x60
  const OP_RET := 0x61
  const OP_CALL_FAST_0 := 0x62
  const OP_CALL_FAST_1 := 0x63
  const OP_RET_FAST := 0x64
  const OP_GET_FIELD := 0xA0
  const OP_NEW_INSTANCE := 0xA1
  const OP_SET_FIELD := 0xA3
  const OP_INVOKE_METHOD := 0xA4
  const OP_NEW_ARRAY := 0xA6
  const OP_TRY := 0xA7
  const OP_THROW := 0xA8
  const OP_POP_TRY := 0xA9
  const OP_CLOSURE := 0xAA
  const OP_CALL_INDIRECT := 0xAB
  const OP_LOAD_LOCAL_0 := 0xB0
  const OP_STORE_LOCAL_0 := 0xB4
  const OP_INCR_LOCAL_IMM := 0xB8
  const OP_LOOP_RANGE_FAST := 0xBB
  const OP_STORE_LOCAL_POP := 0xC4
  const OP_STORE_LOCAL_0_POP := 0xC5
  const OP_LOAD_LOAD_LOCAL := 0xC9
  const OP_FUSED_ADD_LOCAL_LOCAL_STORE := 0xCA
  const OP_FUSED_MUL_ADD_I64 := 0xCB
  const OP_INVOKE_METHOD_IC := 0xD0
  const OP_HALT := 0xFF

  /** The range of opcodes that exist only in optimized chunks. */
  predicate SuperOp(op: int) {
    0xB0 <= op <= 0xD0
  }

  /** Length of a canonical instruction, operands included. */
  function CanonLen(op: int): (n: nat)
    ensures 1 <= n <= 21
  {
    if op == OP_PUSH_INT || op == OP_PUSH_FLOAT then 9
    else if op == OP_PUSH_TRYTE || op == OP_PUSH_STRING || op == OP_LOAD_LOCAL || op == OP_STORE_LOCAL
            || op == OP_LOAD_GLOBAL || op == OP_STORE_GLOBAL || op == OP_JUMP || op == OP_JUMP_IF_FALSE
            || op == OP_GET_FIELD || op == OP_SET_FIELD || op == OP_NEW_ARRAY || op == OP_TRY then 3
    else if op == OP_NEW_INSTANCE || op == OP_INVOKE_METHOD || op == OP_INVOKE_METHOD_IC || op == OP_CALL
            || op == OP_CALL_FAST_0 || op == OP_CALL_FAST_1 || op == OP_CLOSURE then 4
    else if op == OP_PUSH_BOOL || op == OP_CALL_INDIRECT then 2
    else if op == OP_BRANCH_3 then 7
    else if op == OP_PUSH_TAFPU then 21
    else 1
  }

  /** Length of an instruction of an optimized chunk. */
  function OptLen(op: int): (n: nat)
    ensures 1 <= n <= 21
    ensures !SuperOp(op) ==> n == CanonLen(op)
  {
    if op == OP_INCR_LOCAL_IMM || op == OP_LOAD_LOAD_LOCAL then 5
    else if op == OP_LOOP_RANGE_FAST || op == OP_FUSED_MUL_ADD_I64 then 9
    else if op == OP_STORE_LOCAL_POP then 3
    else if op == OP_FUSED_ADD_LOCAL_LOCAL_STORE then 7
    else CanonLen(op)
  }

  // ----------------------------------------------------------------- values

  datatype Value = Nil | Int(i: int) | Bool(b: bool)

  const MIN_INT48 := -140737488355328
  const MAX_INT48 := 140737488355327

  function AsInt(v: Value): int {
    match v
    case Nil => 0
    case Int(i) => i
    case Bool(b) => if b then 1 else 0
  }

  function AsBool(v: Value): bool {
    match v
    case Nil => false
    case Int(i) => i != 0
    case Bool(b) => b
  }

  predicate Immediate(v: Value) {
    v.Int? && MIN_INT48 <= v.i <= MAX_INT48
  }

  function AddValues(x: Value, y: Value): Value {
    Int(Wrap64(AsInt(x) + AsInt(y)))
  }

  function MulValues(x: Value, y: Value): Value {
    Int(Wrap64(AsInt(x) * AsInt(y)))
  }

  /** Kleene AND: the minimum, which stays a boolean on booleans. */
  function MinValues(x: Value, y: Value): Value {
    var v1, v2 := AsInt(x), AsInt(y);
    if x.Bool? && y.Bool? then Bool(if v1 < v2 then v1 != 0 else v2 != 0)
    else Int(if v1 < v2 then v1 else v2)
  }

  function MaxValues(x: Value, y: Value): Value {
    var v1, v2 := AsInt(x), AsInt(y);
    if x.Bool? && y.Bool? then Bool(if v1 > v2 then v1 != 0 else v2 != 0)
    else Int(if v1 > v2 then v1 else v2)
  }

  function Compare(op: int, x: Value, y: Value): Value {
    var v1, v2 := AsInt(x), AsInt(y);
    Bool(if op == OP_EQ then v1 == v2
         else if op == OP_NEQ then v1 != v2
         else if op == OP_LT then v1 < v2
         else if op == OP_LE then v1 <= v2
         else if op == OP_GT then v1 > v2
         else v1 >= v2)
  }

  function Binary(op: int, x: Value, y: Value): Value {
    if op == OP_ADD then AddValues(x, y)
    else if op == OP_SUB then Int(Wrap64(AsInt(x) - AsInt(y)))
    else if op == OP_MUL then MulValues(x, y)
    else if op == OP_TERNARY_MIN then MinValues(x, y)
    else if op == OP_TERNARY_MAX then MaxValues(x, y)
    else Compare(op, x, y)
  }

  predicate BinaryOp(op: int) {
    op == OP_ADD || op == OP_SUB || op == OP_MUL || op == OP_TERNARY_MIN || op == OP_TERNARY_MAX
    || OP_EQ <= op <= OP_GE
  }

  /** The fused multiply-add: one unchecked 64-bit expression when all operands
      are immediate and the result is too, otherwise the two generic operations. */
  function FusedMulAdd(a: Value, b: Value, c: Value): Value {
    var res := if Immediate(a) && Immediate(b) && Immediate(c) then Wrap64(a.i * b.i + c.i) else MAX_INT48 + 1;
    if MIN_INT48 <= res <= MAX_INT48 then Int(res) else AddValues(MulValues(a, b), c)
  }

  lemma FusedMulAddIsMulThenAdd(a: Value, b: Value, c: Value)
    ensures FusedMulAdd(a, b, c) == AddValues(MulValues(a, b), c)
  {
    WrapAbsorbsInner(AsInt(a) * AsInt(b), AsInt(c));
  }

  // ------------------------------------------------------------------ state

  datatype Stack = Empty | Push(top: Value, below: Stack)

  function Depth(s: Stack): nat {
    if s.Empty? then 0 else 1 + Depth(s.below)
  }

  datatype TryFrame = TryFrame(catchPc: int, depth: nat)

  datatype State = State(
    pc: int,
    stack: Stack,
    locals: map<nat, Value>,
    globals: map<nat, Value>,
    handlers: seq<TryFrame>)

  /** Reading a slot that was never written gives the default value. */
  function Get(m: map<nat, Value>, k: nat): Value {
    if k in m then m[k] else Nil
  }

  datatype Outcome =
    | Running(s: State)
    | Halted(s: State)
    | Yield(s: State, op: int, operands: seq<Byte>)
    | Underflow
    | ZeroStep(s: State)
    | Wild

  // ----------------------------------------------------------- instructions

  datatype Instr =
    | Nop
    | PushConst(v: Value)
    | Pop
    | Dup
    | LoadLocal(slot: nat)
    | StoreLocal(slot: nat)
    | LoadGlobal(slot: nat)
    | StoreGlobal(slot: nat)
    | BinaryInstr(op: int)
    | Neg
    | Jump(off: int)
    | JumpIfFalse(off: int)
    | Branch3(neg: int, zero: int, pos: int)
    | Try(off: int)
    | PopTry
    | Halt
    | External(op: int, operands: seq<Byte>)
    | IncrLocalImm(slot: nat, imm: int)
    | LoopRangeFast(varSlot: nat, stopSlot: nat, stepSlot: nat, off: int)
    | StoreLocalPop(slot: nat)
    | LoadLoadLocal(a: nat, b: nat)
    | FusedAddStore(a: nat, b: nat, d: nat)
    | FusedMulAddStore(a: nat, b: nat, c: nat, d: nat)

  function Slot(code: seq<Byte>, pos: nat): nat
    requires pos + 2 <= |code|
  {
    U16(code[pos], code[pos + 1])
  }

  function Offset(code: seq<Byte>, pos: nat): (r: int)
    requires pos + 2 <= |code|
    ensures FitsInt16(r)
  {
    I16(code[pos], code[pos + 1])
  }

  /** The instruction at `pc`, when all of its bytes are inside the code. */
  function Decode(code: seq<Byte>, pc: nat): Instr
    requires pc < |code| && pc + OptLen(code[pc]) <= |code|
  {
    var op := code[pc];
    if op == OP_NOP then Nop
    else if op == OP_PUSH_INT then PushConst(Int(I64(code, pc + 1)))
    else if op == OP_PUSH_BOOL then PushConst(Bool(code[pc + 1] != 0))
    else if op == OP_POP then Pop
    else if op == OP_DUP then Dup
    else if op == OP_LOAD_LOCAL then LoadLocal(Slot(code, pc + 1))
    else if op == OP_STORE_LOCAL then StoreLocal(Slot(code, pc + 1))
    else if op == OP_LOAD_GLOBAL then LoadGlobal(Slot(code, pc + 1))
    else if op == OP_STORE_GLOBAL then StoreGlobal(Slot(code, pc + 1))
    else if BinaryOp(op) then BinaryInstr(op)
    else if op == OP_NEG then Neg
    else if op == OP_JUMP then Jump(Offset(code, pc + 1))
    else if op == OP_JUMP_IF_FALSE then JumpIfFalse(Offset(code, pc + 1))
    else if op == OP_BRANCH_3 then Branch3(Offset(code, pc + 1), Offset(code, pc + 3), Offset(code, pc + 5))
    else if op == OP_TRY then Try(Offset(code, pc + 1))
    else if op == OP_POP_TRY then PopTry
    else if op == OP_HALT then Halt
    else if OP_LOAD_LOCAL_0 <= op <= OP_LOAD_LOCAL_0 + 3 then LoadLocal(op - OP_LOAD_LOCAL_0)
    else if OP_STORE_LOCAL_0 <= op <= OP_STORE_LOCAL_0 + 3 then StoreLocal(op - OP_STORE_LOCAL_0)
    else if op == OP_INCR_LOCAL_IMM then IncrLocalImm(Slot(code, pc + 1), Offset(code, pc + 3))
    else if op == OP_LOOP_RANGE_FAST then
      LoopRangeFast(Slot(code, pc + 1), Slot(code, pc + 3), Slot(code, pc + 5), Offset(code, pc + 7))
    else if op == OP_STORE_LOCAL_POP then StoreLocalPop(Slot(code, pc + 1))
    else if OP_STORE_LOCAL_0_POP <= op <= OP_STORE_LOCAL_0_POP + 3 then StoreLocalPop(op - OP_STORE_LOCAL_0_POP)
    else if op == OP_LOAD_LOAD_LOCAL then LoadLoadLocal(Slot(code, pc + 1), Slot(code, pc + 3))
    else if op == OP_FUSED_ADD_LOCAL_LOCAL_STORE then
      FusedAddStore(Slot(code, pc + 1), Slot(code, pc + 3), Slot(code, pc + 5))
    else if op == OP_FUSED_MUL_ADD_I64 then
      FusedMulAddStore(Slot(code, pc + 1), Slot(code, pc + 3), Slot(code, pc + 5), Slot(code, pc + 7))
    else External(op, code[pc + 1..pc + OptLen(op)])
  }

  /** One instruction of length `len`, executed at `s.pc`. */
  function Exec(i: Instr, len: nat, s: State): Outcome {
    var t := s.(pc := s.pc + len);
    match i
    case Nop => Running(t)
    case PushConst(v) => Running(t.(stack := Push(v, s.stack)))
    case Pop => if s.stack.Empty? then Underflow else Running(t.(stack := s.stack.below))
    case Dup => if s.stack.Empty? then Underflow else Running(t.(stack := Push(s.stack.top, s.stack)))
    case LoadLocal(k) => Running(t.(stack := Push(Get(s.locals, k), s.stack)))
    case StoreLocal(k) =>
      if s.stack.Empty? then Underflow else Running(t.(locals := s.locals[k := s.stack.top]))
    case LoadGlobal(k) => Running(t.(stack := Push(Get(s.globals, k), s.stack)))
    case StoreGlobal(k) =>
      if s.stack.Empty? then Underflow else Running(t.(globals := s.globals[k := s.stack.top]))
    case BinaryInstr(op) =>
      if s.stack.Empty? || s.stack.below.Empty? then Underflow
      else Running(t.(stack := Push(Binary(op, s.stack.below.top, s.stack.top), s.stack.below.below)))
    case Neg =>
      if s.stack.Empty? then Underflow
      else Running(t.(stack := Push(Int(Wrap64(-AsInt(s.stack.top))), s.stack.below)))
    case Jump(off) => Running(t.(pc := t.pc + off))
    case JumpIfFalse(off) =>
      if s.stack.Empty? then Underflow
      else Running(t.(stack := s.stack.below, pc := if AsBool(s.stack.top) then t.pc else t.pc + off))
    case Branch3(neg, zero, pos) =>
      if s.stack.Empty? then Underflow
      else
        var n := AsInt(s.stack.top);
        var target := if n < 0 then s.pc + 3 + neg else if n == 0 then s.pc + 5 + zero else s.pc + 7 + pos;
        Running(t.(stack := s.stack.below, pc := target))
    case Try(off) => Running(t.(handlers := s.handlers + [TryFrame(t.pc + off, Depth(s.stack))]))
    case PopTry => Running(t.(handlers := if s.handlers == [] then [] else s.handlers[..|s.handlers| - 1]))
    case Halt => Halted(s)
    case External(op, operands) => Yield(s, op, operands)
    case IncrLocalImm(k, imm) => Running(t.(locals := s.locals[k := AddValues(Get(s.locals, k), Int(imm))]))
    case LoopRangeFast(v, stop, step, off) =>
      var varVal, stopVal, stepVal := AsInt(Get(s.locals, v)), AsInt(Get(s.locals, stop)), AsInt(Get(s.locals, step));
      if stepVal == 0 then ZeroStep(s)
      else
        var active := if stepVal > 0 then varVal < stopVal else varVal > stopVal;
        Running(if active then t else t.(pc := t.pc + off))
    case StoreLocalPop(k) =>
      if s.stack.Empty? then Underflow
      else Running(t.(locals := s.locals[k := s.stack.top], stack := s.stack.below))
    case LoadLoadLocal(a, b) =>
      Running(t.(stack := Push(Get(s.locals, b), Push(Get(s.locals, a), s.stack))))
    case FusedAddStore(a, b, d) =>
      Running(t.(locals := s.locals[d := AddValues(Get(s.locals, a), Get(s.locals, b))]))
    case FusedMulAddStore(a, b, c, d) =>
      Running(t.(locals := s.locals[d := FusedMulAdd(Get(s.locals, a), Get(s.locals, b), Get(s.locals, c))]))
  }

  /** One step. The canonical interpreter stops when the program counter leaves
      the code (`guarded`); the optimized one does not look. */
  function Step(code: seq<Byte>, guarded: bool, s: State): Outcome {
    if 0 <= s.pc < |code| then
      if s.pc + OptLen(code[s.pc]) <= |code| then Exec(Decode(code, s.pc), OptLen(code[s.pc]), s) else Wild
    else if guarded then Halted(s)
    else Wild
  }

  /** `n` steps of a machine, or fewer when it stops. */
  function Iterate(step: State -> Outcome, s: State, n: nat): Outcome
    decreases n
  {
    if n == 0 then Running(s)
    else
      match step(s)
      case Running(t) => Iterate(step, t, n - 1)
      case o => o
  }

  function Machine(code: seq<Byte>, guarded: bool): State -> Outcome {
    (s: State) => Step(code, guarded, s)
  }

  function Run(code: seq<Byte>, guarded: bool, s: State, n: nat): Outcome {
    Iterate(Machine(code, guarded), s, n)
  }

  /** Running on from a run that has not stopped. */
  function Continue(step: State -> Outcome, o: Outcome, n: nat): Outcome {
    match o
    case Running(t) => Iterate(step, t, n)
    case _ => o
  }

  lemma {:induction false} IterateAppends(step: State -> Outcome, s: State, m: nat, n: nat)
    ensures Iterate(step, s, m + n) == Continue(step, Iterate(step, s, m), n)
    decreases m
  {
    if m > 0 {
      match step(s)
      case Running(t) => IterateAppends(step, t, m - 1, n);
      case _ =>
    }
  }

  /** Steps of the machine `step` taken during `m` steps of the machine `ref`, when
      each step of `ref` from `s` is worth `work(s)` steps. */
  function Total(ref: State -> Outcome, work: State -> nat, s: State, m: nat): nat
    decreases m
  {
    if m == 0 then 0
    else
      match ref(s)
      case Running(t) => work(s) + Total(ref, work, t, m - 1)
      case _ => work(s)
  }

  /** From good states every step of `ref` is `work` steps of `step`, except that it traps at
      once exactly in the states that `trap` names. */
  ghost predicate Refines(ref: State -> Outcome, step: State -> Outcome, work: State -> nat, good: State -> bool,
                          trap: State -> bool) {
    forall s: State :: good(s) ==>
      && work(s) >= 1
      && ref(s) == (if trap(s) then ZeroStep(s) else Iterate(step, s, work(s)))
      && (ref(s).Running? ==> good(ref(s).s))
  }

  /** After `n` steps the machine stands in the good state `u`, where `ref` traps. */
  ghost predicate MeetsTrap(step: State -> Outcome, good: State -> bool, trap: State -> bool,
                            s: State, n: nat, u: State) {
    Iterate(step, s, n) == Running(u) && good(u) && trap(u)
  }

  /** The run of `ref` is a run of `step`, or that run met a trap and `ref` stopped right there. */
  lemma {:induction false} RefinedRun(ref: State -> Outcome, step: State -> Outcome, work: State -> nat,
                                      good: State -> bool, trap: State -> bool, s: State, m: nat)
    requires Refines(ref, step, work, good, trap) && good(s)
    ensures var r, n := Iterate(ref, s, m), Total(ref, work, s, m);
      || (r == Iterate(step, s, n) && (r.Running? ==> n >= m))
      || exists k: nat, u: State :: MeetsTrap(step, good, trap, s, k, u) && r == ZeroStep(u)
    decreases m
  {
    if m > 0 {
      if trap(s) {
        assert MeetsTrap(step, good, trap, s, 0, s);
      } else if ref(s).Running? {
        var t := ref(s).s;
        RefinedRun(ref, step, work, good, trap, t, m - 1);
        IterateAppends(step, s, work(s), Total(ref, work, t, m - 1));
        forall k: nat, u: State | MeetsTrap(step, good, trap, t, k, u)
          ensures MeetsTrap(step, good, trap, s, work(s) + k, u)
        {
          IterateAppends(step, s, work(s), k);
        }
      }
    }
  }

  lemma {:induction false} StoppedStays(step: State -> Outcome, s: State, n: nat, m: nat)
    requires n <= m && !Iterate(step, s, n).Running?
    ensures Iterate(step, s, m) == Iterate(step, s, n)
    decreases n
  {
    if n > 0 {
      match step(s)
      case Running(t) => StoppedStays(step, t, n - 1, m - 1);
      case _ =>
    }
  }

  /** No good state lies strictly inside the steps that one step of `ref` stands for. */
  ghost predicate NoneInside(step: State -> Outcome, work: State -> nat, good: State -> bool) {
    forall s: State, k: nat {:trigger Iterate(step, s, k)} ::
      good(s) && 0 < k < work(s) && Iterate(step, s, k).Running? ==> !good(Iterate(step, s, k).s)
  }

  /** Conversely, when the run of `step` meets a trap after `n` steps, `ref` has trapped by then. */
  lemma {:induction false} TrapIsMet(ref: State -> Outcome, step: State -> Outcome, work: State -> nat,
                                     good: State -> bool, trap: State -> bool, s: State, n: nat, u: State)
    requires Refines(ref, step, work, good, trap) && NoneInside(step, work, good) && good(s)
    requires MeetsTrap(step, good, trap, s, n, u)
    ensures Iterate(ref, s, n + 1).ZeroStep?
    decreases n
  {
    if !trap(s) {
      assert n >= work(s);
      IterateAppends(step, s, work(s), n - work(s));
      var t := ref(s).s;
      assert MeetsTrap(step, good, trap, t, n - work(s), u);
      TrapIsMet(ref, step, work, good, trap, t, n - work(s), u);
      StoppedStays(ref, t, n - work(s) + 1, n);
    }
  }

  lemma StoppedAgree(step: State -> Outcome, s: State, n: nat, k: nat)
    requires !Iterate(step, s, n).Running? && (Iterate(step, s, k).Running? ==> k >= n)
    ensures Iterate(step, s, k) == Iterate(step, s, n)
  {
    if k >= n {
      StoppedStays(step, s, n, k);
    } else {
      StoppedStays(step, s, k, n);
    }
  }
}
