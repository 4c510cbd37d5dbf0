/** What a block does when the canonical instructions run, and what its translation decodes to. */
module BlockSemantics {
  import opened Bytes
  import opened Vm
  import opened Optimizer

  // ---------------------------------------------------- canonical execution

  ghost predicate Reaches(c: seq<Byte>, s: State, n: nat, t: State) {
    Run(c, true, s, n) == Running(t)
  }

  lemma ReachesTrans(c: seq<Byte>, s: State, m: nat, t: State, n: nat, u: State)
    requires Reaches(c, s, m, t) && Reaches(c, t, n, u)
    ensures Reaches(c, s, m + n, u)
  {
    IterateAppends(Machine(c, true), s, m, n);
  }

  lemma OneStep(c: seq<Byte>, s: State)
    ensures Run(c, true, s, 1) == Step(c, true, s)
  {
    assert Machine(c, true)(s) == Step(c, true, s);
  }

  lemma RunLoad(c: seq<Byte>, s: State)
    requires 0 <= s.pc && s.pc + 3 <= |c| && c[s.pc] == OP_LOAD_LOCAL
    ensures Reaches(c, s, 1, s.(pc := s.pc + 3, stack := Push(Get(s.locals, Slot(c, s.pc + 1)), s.stack)))
  {
    OneStep(c, s);
  }

  lemma RunPushInt(c: seq<Byte>, s: State)
    requires 0 <= s.pc && s.pc + 9 <= |c| && c[s.pc] == OP_PUSH_INT
    ensures Reaches(c, s, 1, s.(pc := s.pc + 9, stack := Push(Int(I64(c, s.pc + 1)), s.stack)))
  {
    OneStep(c, s);
  }

  lemma RunBinary(c: seq<Byte>, s: State, y: Value, x: Value, below: Stack)
    requires 0 <= s.pc < |c| && BinaryOp(c[s.pc]) && s.stack == Push(y, Push(x, below))
    ensures Reaches(c, s, 1, s.(pc := s.pc + 1, stack := Push(Binary(c[s.pc], x, y), below)))
  {
    OneStep(c, s);
  }

  lemma RunStore(c: seq<Byte>, s: State)
    requires 0 <= s.pc && s.pc + 3 <= |c| && c[s.pc] == OP_STORE_LOCAL && s.stack.Push?
    ensures Reaches(c, s, 1, s.(pc := s.pc + 3, locals := s.locals[Slot(c, s.pc + 1) := s.stack.top]))
  {
    OneStep(c, s);
  }

  lemma RunPop(c: seq<Byte>, s: State)
    requires 0 <= s.pc < |c| && c[s.pc] == OP_POP && s.stack.Push?
    ensures Reaches(c, s, 1, s.(pc := s.pc + 1, stack := s.stack.below))
  {
    OneStep(c, s);
  }

  lemma RunLoadLoad(c: seq<Byte>, s: State)
    requires 0 <= s.pc && s.pc + 6 <= |c| && c[s.pc] == OP_LOAD_LOCAL && c[s.pc + 3] == OP_LOAD_LOCAL
    ensures var x, y := Get(s.locals, Slot(c, s.pc + 1)), Get(s.locals, Slot(c, s.pc + 4));
      Reaches(c, s, 2, s.(pc := s.pc + 6, stack := Push(y, Push(x, s.stack))))
  {
    var t := s.(pc := s.pc + 3, stack := Push(Get(s.locals, Slot(c, s.pc + 1)), s.stack));
    RunLoad(c, s);
    RunLoad(c, t);
    ReachesTrans(c, s, 1, t, 1, t.(pc := t.pc + 3, stack := Push(Get(t.locals, Slot(c, t.pc + 1)), t.stack)));
  }

  lemma RunStorePop(c: seq<Byte>, s: State)
    requires 0 <= s.pc && s.pc + 4 <= |c| && c[s.pc] == OP_STORE_LOCAL && c[s.pc + 3] == OP_POP && s.stack.Push?
    ensures Reaches(c, s, 2,
      s.(pc := s.pc + 4, locals := s.locals[Slot(c, s.pc + 1) := s.stack.top], stack := s.stack.below))
  {
    var t := s.(pc := s.pc + 3, locals := s.locals[Slot(c, s.pc + 1) := s.stack.top]);
    RunStore(c, s);
    RunPop(c, t);
    ReachesTrans(c, s, 1, t, 1, t.(pc := t.pc + 1, stack := t.stack.below));
  }

  /** LOAD x; LOAD y; op */
  lemma RunLocals(c: seq<Byte>, s: State)
    requires 0 <= s.pc && s.pc + 7 <= |c| && c[s.pc] == OP_LOAD_LOCAL && c[s.pc + 3] == OP_LOAD_LOCAL
    requires BinaryOp(c[s.pc + 6])
    ensures var x, y := Get(s.locals, Slot(c, s.pc + 1)), Get(s.locals, Slot(c, s.pc + 4));
      Reaches(c, s, 3, s.(pc := s.pc + 7, stack := Push(Binary(c[s.pc + 6], x, y), s.stack)))
  {
    var x, y := Get(s.locals, Slot(c, s.pc + 1)), Get(s.locals, Slot(c, s.pc + 4));
    var t := s.(pc := s.pc + 6, stack := Push(y, Push(x, s.stack)));
    RunLoadLoad(c, s);
    RunBinary(c, t, y, x, s.stack);
    ReachesTrans(c, s, 2, t, 1, t.(pc := t.pc + 1, stack := Push(Binary(c[t.pc], x, y), s.stack)));
  }

  /** LOAD x; PUSH_INT k; op */
  lemma RunConst(c: seq<Byte>, s: State)
    requires 0 <= s.pc && s.pc + 13 <= |c| && c[s.pc] == OP_LOAD_LOCAL && c[s.pc + 3] == OP_PUSH_INT
    requires BinaryOp(c[s.pc + 12])
    ensures var x, y := Get(s.locals, Slot(c, s.pc + 1)), Int(I64(c, s.pc + 4));
      Reaches(c, s, 3, s.(pc := s.pc + 13, stack := Push(Binary(c[s.pc + 12], x, y), s.stack)))
  {
    var x, y := Get(s.locals, Slot(c, s.pc + 1)), Int(I64(c, s.pc + 4));
    var t := s.(pc := s.pc + 3, stack := Push(x, s.stack));
    var u := t.(pc := t.pc + 9, stack := Push(y, t.stack));
    RunLoad(c, s);
    RunPushInt(c, t);
    ReachesTrans(c, s, 1, t, 1, u);
    RunBinary(c, u, y, x, s.stack);
    ReachesTrans(c, s, 2, u, 1, u.(pc := u.pc + 1, stack := Push(Binary(c[u.pc], x, y), s.stack)));
  }

  lemma RunAddStore(c: seq<Byte>, s: State)
    requires 0 <= s.pc && AddStorePattern(c, s.pc)
    ensures var x, y := Get(s.locals, Slot(c, s.pc + 1)), Get(s.locals, Slot(c, s.pc + 4));
      Reaches(c, s, 5, s.(pc := s.pc + 11, locals := s.locals[Slot(c, s.pc + 8) := AddValues(x, y)]))
  {
    var x, y := Get(s.locals, Slot(c, s.pc + 1)), Get(s.locals, Slot(c, s.pc + 4));
    var t := s.(pc := s.pc + 7, stack := Push(AddValues(x, y), s.stack));
    RunLocals(c, s);
    RunStorePop(c, t);
    ReachesTrans(c, s, 3, t, 2,
      t.(pc := t.pc + 4, locals := t.locals[Slot(c, t.pc + 1) := t.stack.top], stack := t.stack.below));
  }

  lemma RunMulAddA(c: seq<Byte>, s: State)
    requires 0 <= s.pc && MulAddAPattern(c, s.pc)
    ensures var x, y, z := Get(s.locals, Slot(c, s.pc + 1)), Get(s.locals, Slot(c, s.pc + 4)), Get(s.locals, Slot(c, s.pc + 8));
      Reaches(c, s, 7, s.(pc := s.pc + 15, locals := s.locals[Slot(c, s.pc + 12) := AddValues(MulValues(x, y), z)]))
  {
    var x, y, z := Get(s.locals, Slot(c, s.pc + 1)), Get(s.locals, Slot(c, s.pc + 4)), Get(s.locals, Slot(c, s.pc + 8));
    var t := s.(pc := s.pc + 7, stack := Push(MulValues(x, y), s.stack));
    var u := t.(pc := t.pc + 3, stack := Push(z, t.stack));
    RunLocals(c, s);
    RunLoad(c, t);
    ReachesTrans(c, s, 3, t, 1, u);
    RunAddStorePop(c, u, MulValues(x, y), z, s.stack);
    ReachesTrans(c, s, 4, u, 3,
      u.(pc := u.pc + 5, locals := u.locals[Slot(c, u.pc + 2) := AddValues(MulValues(x, y), z)], stack := s.stack));
  }

  /** ADD; STORE d; POP with both operands on the stack. */
  lemma RunAddStorePop(c: seq<Byte>, u: State, x: Value, y: Value, below: Stack)
    requires 0 <= u.pc && u.pc + 5 <= |c| && c[u.pc] == OP_ADD && c[u.pc + 1] == OP_STORE_LOCAL && c[u.pc + 4] == OP_POP
    requires u.stack == Push(y, Push(x, below))
    ensures Reaches(c, u, 3,
      u.(pc := u.pc + 5, locals := u.locals[Slot(c, u.pc + 2) := AddValues(x, y)], stack := below))
  {
    var v := u.(pc := u.pc + 1, stack := Push(AddValues(x, y), below));
    RunBinary(c, u, y, x, below);
    RunStorePop(c, v);
    ReachesTrans(c, u, 1, v, 2,
      v.(pc := v.pc + 4, locals := v.locals[Slot(c, v.pc + 1) := v.stack.top], stack := v.stack.below));
  }

  lemma AddCommutes(x: Value, y: Value)
    ensures AddValues(x, y) == AddValues(y, x)
  {
  }

  /** With the addend loaded first the product is the right operand of the sum. */
  lemma RunMulAddB(c: seq<Byte>, s: State)
    requires 0 <= s.pc && MulAddBPattern(c, s.pc)
    ensures var z, x, y := Get(s.locals, Slot(c, s.pc + 1)), Get(s.locals, Slot(c, s.pc + 4)), Get(s.locals, Slot(c, s.pc + 7));
      Reaches(c, s, 7, s.(pc := s.pc + 15, locals := s.locals[Slot(c, s.pc + 12) := AddValues(MulValues(x, y), z)]))
  {
    var z, x, y := Get(s.locals, Slot(c, s.pc + 1)), Get(s.locals, Slot(c, s.pc + 4)), Get(s.locals, Slot(c, s.pc + 7));
    var t := s.(pc := s.pc + 3, stack := Push(z, s.stack));
    var u := t.(pc := t.pc + 7, stack := Push(MulValues(x, y), t.stack));
    var sum := AddValues(MulValues(x, y), z);
    var v := u.(pc := u.pc + 1, stack := Push(sum, s.stack));
    RunLoad(c, s);
    RunLocals(c, t);
    ReachesTrans(c, s, 1, t, 3, u);
    RunBinary(c, u, MulValues(x, y), z, s.stack);
    AddCommutes(z, MulValues(x, y));
    ReachesTrans(c, s, 4, u, 1, v);
    RunStorePop(c, v);
    ReachesTrans(c, s, 5, v, 2,
      v.(pc := v.pc + 4, locals := v.locals[Slot(c, v.pc + 1) := v.stack.top], stack := v.stack.below));
  }

  /** The canonical increment: the new value stays on the stack, because STORE_LOCAL peeks. */
  lemma RunIncrement(c: seq<Byte>, s: State)
    requires 0 <= s.pc && IncrementPattern(c, s.pc)
    ensures var k := Slot(c, s.pc + 1);
      var v := AddValues(Get(s.locals, k), Int(I64(c, s.pc + 4)));
      Reaches(c, s, 4, s.(pc := s.pc + 16, locals := s.locals[k := v], stack := Push(v, s.stack)))
  {
    var v := AddValues(Get(s.locals, Slot(c, s.pc + 1)), Int(I64(c, s.pc + 4)));
    var t := s.(pc := s.pc + 13, stack := Push(v, s.stack));
    RunConst(c, s);
    RunStore(c, t);
    ReachesTrans(c, s, 3, t, 1, t.(pc := t.pc + 3, locals := t.locals[Slot(c, t.pc + 1) := t.stack.top]));
  }

  // ------------------------------------------------------------ loop header

  /** What the emitter writes: the same three slots in both halves, compared with zero. */
  predicate EmittedHeader(c: seq<Byte>, ip: nat) {
    && LoopPattern(c, ip)
    && Slot(c, ip + 22) == Slot(c, ip + 1)
    && Slot(c, ip + 35) == Slot(c, ip + 14)
    && Slot(c, ip + 38) == Slot(c, ip + 17)
    && I64(c, ip + 4) == 0 && I64(c, ip + 25) == 0
  }

  function LoopActive(v: int, stop: int, step: int): bool {
    (step > 0 && v < stop) || (step < 0 && v > stop)
  }

  function HeaderStep(c: seq<Byte>, ip: nat, s: State): int
    requires LoopPattern(c, ip)
  {
    AsInt(Get(s.locals, Slot(c, ip + 1)))
  }

  /** One half of the condition: (step op 0) && (var op' stop). */
  lemma RunHalf(c: seq<Byte>, s: State)
    requires 0 <= s.pc && s.pc + 21 <= |c|
    requires c[s.pc] == OP_LOAD_LOCAL && c[s.pc + 3] == OP_PUSH_INT && c[s.pc + 12] in {OP_LT, OP_GT}
    requires c[s.pc + 13] == OP_LOAD_LOCAL && c[s.pc + 16] == OP_LOAD_LOCAL && c[s.pc + 19] in {OP_LT, OP_GT}
    requires c[s.pc + 20] == OP_TERNARY_MIN
    ensures var step, v, stop := Get(s.locals, Slot(c, s.pc + 1)), Get(s.locals, Slot(c, s.pc + 14)), Get(s.locals, Slot(c, s.pc + 17));
      var b1, b2 := Compare(c[s.pc + 12], step, Int(I64(c, s.pc + 4))), Compare(c[s.pc + 19], v, stop);
      Reaches(c, s, 7, s.(pc := s.pc + 21, stack := Push(Bool(b1.b && b2.b), s.stack)))
  {
    var step, v, stop := Get(s.locals, Slot(c, s.pc + 1)), Get(s.locals, Slot(c, s.pc + 14)), Get(s.locals, Slot(c, s.pc + 17));
    var b1, b2 := Compare(c[s.pc + 12], step, Int(I64(c, s.pc + 4))), Compare(c[s.pc + 19], v, stop);
    var t := s.(pc := s.pc + 13, stack := Push(b1, s.stack));
    RunConst(c, s);
    RunSecondTest(c, t, b1, b2, s.stack);
    ReachesTrans(c, s, 3, t, 4, t.(pc := t.pc + 8, stack := Push(Bool(b1.b && b2.b), s.stack)));
  }

  /** The test of the loop variable, joined to the first test by AND. */
  lemma RunSecondTest(c: seq<Byte>, t: State, b1: Value, b2: Value, below: Stack)
    requires 0 <= t.pc && t.pc + 8 <= |c| && c[t.pc] == OP_LOAD_LOCAL && c[t.pc + 3] == OP_LOAD_LOCAL
    requires c[t.pc + 6] in {OP_LT, OP_GT} && c[t.pc + 7] == OP_TERNARY_MIN && t.stack == Push(b1, below) && b1.Bool?
    requires b2 == Compare(c[t.pc + 6], Get(t.locals, Slot(c, t.pc + 1)), Get(t.locals, Slot(c, t.pc + 4)))
    ensures Reaches(c, t, 4, t.(pc := t.pc + 8, stack := Push(Bool(b1.b && b2.b), below)))
  {
    var u := t.(pc := t.pc + 7, stack := Push(b2, t.stack));
    RunLocals(c, t);
    RunBinary(c, u, b2, b1, below);
    ReachesTrans(c, t, 3, u, 1, u.(pc := u.pc + 1, stack := Push(Binary(c[u.pc], b1, b2), below)));
  }

  lemma RunJumpIfFalse(c: seq<Byte>, s: State)
    requires 0 <= s.pc && s.pc + 3 <= |c| && c[s.pc] == OP_JUMP_IF_FALSE && s.stack.Push?
    ensures var next := s.pc + 3;
      Reaches(c, s, 1,
        s.(pc := if AsBool(s.stack.top) then next else next + Offset(c, s.pc + 1), stack := s.stack.below))
  {
    OneStep(c, s);
  }

  lemma RunUpHalf(c: seq<Byte>, s: State, v: int, stop: int, step: int)
    requires 0 <= s.pc && EmittedHeader(c, s.pc) && step == HeaderStep(c, s.pc, s)
    requires v == AsInt(Get(s.locals, Slot(c, s.pc + 14))) && stop == AsInt(Get(s.locals, Slot(c, s.pc + 17)))
    ensures Reaches(c, s, 7, s.(pc := s.pc + 21, stack := Push(Bool(step > 0 && v < stop), s.stack)))
  {
    RunHalf(c, s);
  }

  lemma RunDownHalf(c: seq<Byte>, ip: nat, s: State, v: int, stop: int, step: int)
    requires s.pc == ip + 21 && EmittedHeader(c, ip) && step == HeaderStep(c, ip, s)
    requires v == AsInt(Get(s.locals, Slot(c, ip + 14))) && stop == AsInt(Get(s.locals, Slot(c, ip + 17)))
    ensures Reaches(c, s, 7, s.(pc := s.pc + 21, stack := Push(Bool(step < 0 && v > stop), s.stack)))
  {
    assert c[s.pc] == OP_LOAD_LOCAL && c[s.pc + 3] == OP_PUSH_INT && c[s.pc + 12] == OP_LT;
    assert c[s.pc + 13] == OP_LOAD_LOCAL && c[s.pc + 16] == OP_LOAD_LOCAL && c[s.pc + 19] == OP_GT;
    assert c[s.pc + 20] == OP_TERNARY_MIN;
    RunHalf(c, s);
  }

  /** The state after both halves of the condition. */
  function AfterHalves(s: State, up: bool, down: bool): State {
    s.(pc := s.pc + 42, stack := Push(Bool(down), Push(Bool(up), s.stack)))
  }

  lemma RunHalves(c: seq<Byte>, s: State, v: int, stop: int, step: int)
    requires 0 <= s.pc && EmittedHeader(c, s.pc) && step == HeaderStep(c, s.pc, s)
    requires v == AsInt(Get(s.locals, Slot(c, s.pc + 14))) && stop == AsInt(Get(s.locals, Slot(c, s.pc + 17)))
    ensures Reaches(c, s, 14, AfterHalves(s, step > 0 && v < stop, step < 0 && v > stop))
  {
    var t := s.(pc := s.pc + 21, stack := Push(Bool(step > 0 && v < stop), s.stack));
    RunUpHalf(c, s, v, stop, step);
    RunDownHalf(c, s.pc, t, v, stop, step);
    TwoHalves(c, s, t, AfterHalves(s, step > 0 && v < stop, step < 0 && v > stop));
  }

  lemma TwoHalves(c: seq<Byte>, s: State, t: State, u: State)
    requires Reaches(c, s, 7, t) && Reaches(c, t, 7, u)
    ensures Reaches(c, s, 14, u)
  {
    ReachesTrans(c, s, 7, t, 7, u);
  }

  /** The disjunction and the exit jump. */
  lemma RunExit(c: seq<Byte>, s: State, up: bool, down: bool, u: State)
    requires 0 <= s.pc && s.pc + 46 <= |c| && c[s.pc + 42] == OP_TERNARY_MAX && c[s.pc + 43] == OP_JUMP_IF_FALSE
    requires u == AfterHalves(s, up, down)
    ensures Reaches(c, u, 2, s.(pc := if up || down then s.pc + 46 else s.pc + 46 + Offset(c, s.pc + 44)))
  {
    var w := u.(pc := u.pc + 1, stack := Push(Bool(up || down), s.stack));
    RunBinary(c, u, Bool(down), Bool(up), s.stack);
    RunJumpIfFalse(c, w);
    ReachesTrans(c, u, 1, w, 1, s.(pc := if up || down then s.pc + 46 else s.pc + 46 + Offset(c, s.pc + 44)));
  }

  /** The 46-byte header leaves locals and stack alone and only decides where to go. */
  lemma RunHeader(c: seq<Byte>, s: State)
    requires 0 <= s.pc && EmittedHeader(c, s.pc)
    ensures var v, stop := AsInt(Get(s.locals, Slot(c, s.pc + 14))), AsInt(Get(s.locals, Slot(c, s.pc + 17)));
      Reaches(c, s, 16,
        s.(pc := if LoopActive(v, stop, HeaderStep(c, s.pc, s)) then s.pc + 46 else s.pc + 46 + Offset(c, s.pc + 44)))
  {
    var v, stop := AsInt(Get(s.locals, Slot(c, s.pc + 14))), AsInt(Get(s.locals, Slot(c, s.pc + 17)));
    var step := HeaderStep(c, s.pc, s);
    RunHalves(c, s, v, stop, step);
    FinishHeader(c, s, step > 0 && v < stop, step < 0 && v > stop);
  }

  lemma FinishHeader(c: seq<Byte>, s: State, up: bool, down: bool)
    requires 0 <= s.pc && s.pc + 46 <= |c| && c[s.pc + 42] == OP_TERNARY_MAX && c[s.pc + 43] == OP_JUMP_IF_FALSE
    requires Reaches(c, s, 14, AfterHalves(s, up, down))
    ensures Reaches(c, s, 16, s.(pc := if up || down then s.pc + 46 else s.pc + 46 + Offset(c, s.pc + 44)))
  {
    var u := AfterHalves(s, up, down);
    RunExit(c, s, up, down, u);
    ReachesTrans(c, s, 14, u, 2, s.(pc := if up || down then s.pc + 46 else s.pc + 46 + Offset(c, s.pc + 44)));
  }
}
