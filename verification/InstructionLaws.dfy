/** What the instructions mean to each other: laws over runs that hold whatever the values are. */
module InstructionLaws {
  import opened Bytes
  import opened Vm
  import opened BlockSemantics

  // ------------------------------------------------------------- arithmetic

  /** The result fits in 64 bits and differs from the exact one by whole turns. */
  predicate Rounds(v: Value, exact: int) {
    v.Int? && -0x8000_0000_0000_0000 <= v.i < 0x8000_0000_0000_0000 && (exact - v.i) % 0x1_0000_0000_0000_0000 == 0
  }

  /** Addition, subtraction and multiplication are those of the integers, in 64 bits; the left
      operand is the one pushed first. */
  lemma ArithmeticIs(x: Value, y: Value)
    ensures Rounds(Binary(OP_ADD, x, y), AsInt(x) + AsInt(y))
    ensures Rounds(Binary(OP_SUB, x, y), AsInt(x) - AsInt(y))
    ensures Rounds(Binary(OP_MUL, x, y), AsInt(x) * AsInt(y))
  {
    WrapLosesTurns(AsInt(x) + AsInt(y));
    WrapLosesTurns(AsInt(x) - AsInt(y));
    WrapLosesTurns(AsInt(x) * AsInt(y));
  }

  /** There is only one such result. */
  lemma RoundsOnce(v: Value, w: Value, exact: int)
    requires Rounds(v, exact) && Rounds(w, exact)
    ensures v == w
  {
    TurnsApart(v.i, w.i, exact);
  }

  lemma TurnsApart(a: int, b: int, exact: int)
    requires (exact - a) % 0x1_0000_0000_0000_0000 == 0 && (exact - b) % 0x1_0000_0000_0000_0000 == 0
    requires -0x8000_0000_0000_0000 <= a < 0x8000_0000_0000_0000 && -0x8000_0000_0000_0000 <= b < 0x8000_0000_0000_0000
    ensures a == b
  {
    var k, l := (exact - a) / 0x1_0000_0000_0000_0000, (exact - b) / 0x1_0000_0000_0000_0000;
    assert a - b == (l - k) * 0x1_0000_0000_0000_0000;
  }

  /** Subtracting and adding again gives the 64-bit number back. */
  lemma SubThenAdd(x: Value, y: Value)
    ensures AddValues(Binary(OP_SUB, x, y), y) == Int(Wrap64(AsInt(x)))
  {
    WrapAbsorbsInner(AsInt(x) - AsInt(y), AsInt(y));
  }

  /** As a number nil is zero, and a boolean is one or zero. */
  lemma NilAndBooleansAdd(v: Value, b: bool)
    ensures Binary(OP_ADD, Nil, v) == Binary(OP_ADD, Int(0), v)
    ensures Binary(OP_ADD, Bool(b), v) == Binary(OP_ADD, Int(if b then 1 else 0), v)
    ensures Binary(OP_ADD, Int(3), Int(4)) == Int(7)
  {
  }

  /** NEG is subtraction from zero. */
  lemma NegIsSub(c: seq<Byte>, s: State)
    requires 0 <= s.pc < |c| && c[s.pc] == OP_NEG && s.stack.Push?
    ensures Reaches(c, s, 1, s.(pc := s.pc + 1, stack := Push(Binary(OP_SUB, Int(0), s.stack.top), s.stack.below)))
  {
    OneStep(c, s);
  }

  // ------------------------------------------------------------- comparisons

  /** The six comparisons answer with booleans, exactly one of less, equal and greater holds, and the
      other three are their opposites. */
  lemma ComparisonsAgree(x: Value, y: Value)
    ensures Binary(OP_LT, x, y) == Bool(AsInt(x) < AsInt(y)) && Binary(OP_GT, x, y) == Binary(OP_LT, y, x)
    ensures Binary(OP_EQ, x, y) == Bool(!AsBool(Binary(OP_LT, x, y)) && !AsBool(Binary(OP_GT, x, y)))
    ensures Binary(OP_LE, x, y) == Bool(!AsBool(Binary(OP_GT, x, y)))
    ensures Binary(OP_GE, x, y) == Bool(!AsBool(Binary(OP_LT, x, y)))
    ensures Binary(OP_NEQ, x, y) == Bool(!AsBool(Binary(OP_EQ, x, y)))
  {
  }

  /** The ternary minimum and maximum are those of the integers; on two booleans they are "and" and "or". */
  lemma MinMaxAre(x: Value, y: Value)
    ensures var m, n := Binary(OP_TERNARY_MIN, x, y), Binary(OP_TERNARY_MAX, x, y);
      && AsInt(m) <= AsInt(x) && AsInt(m) <= AsInt(y) && AsInt(m) + AsInt(n) == AsInt(x) + AsInt(y)
      && (AsInt(m) == AsInt(x) || AsInt(m) == AsInt(y))
      && (m.Bool? <==> x.Bool? && y.Bool?) && (n.Bool? <==> x.Bool? && y.Bool?)
      && (x.Bool? && y.Bool? ==> m == Bool(x.b && y.b) && n == Bool(x.b || y.b))
  {
  }

  // -------------------------------------------------------- stack and slots

  /** A run ends for want of operands exactly at an instruction that finds fewer than it takes: two for a
      binary operation, one for those that pop, peek, copy or negate. */
  lemma UnderflowIff(i: Instr, len: nat, s: State)
    ensures Exec(i, len, s) == Underflow <==>
      || (i.BinaryInstr? && Depth(s.stack) < 2)
      || (s.stack == Empty && (i.Pop? || i.Dup? || i.StoreLocal? || i.StoreGlobal? || i.Neg? || i.JumpIfFalse? || i.Branch3?
                               || i.StoreLocalPop?))
  {
    assert s.stack.Push? ==> Depth(s.stack) == 1 + Depth(s.stack.below);
  }

  /** NOP only goes on. */
  lemma RunNop(c: seq<Byte>, s: State)
    requires 0 <= s.pc < |c| && c[s.pc] == OP_NOP
    ensures Reaches(c, s, 1, s.(pc := s.pc + 1))
  {
    OneStep(c, s);
  }

  /** DUP; POP does nothing. */
  lemma DupPop(c: seq<Byte>, s: State)
    requires 0 <= s.pc && s.pc + 2 <= |c| && c[s.pc] == OP_DUP && c[s.pc + 1] == OP_POP && s.stack.Push?
    ensures Reaches(c, s, 2, s.(pc := s.pc + 2))
  {
    var t := s.(pc := s.pc + 1, stack := Push(s.stack.top, s.stack));
    RunDup(c, s);
    RunPop(c, t);
    ReachesTrans(c, s, 1, t, 1, s.(pc := s.pc + 2));
  }

  lemma RunDup(c: seq<Byte>, s: State)
    requires 0 <= s.pc < |c| && c[s.pc] == OP_DUP && s.stack.Push?
    ensures Reaches(c, s, 1, s.(pc := s.pc + 1, stack := Push(s.stack.top, s.stack)))
  {
    OneStep(c, s);
  }

  /** STORE k; LOAD j: the value is still on the stack; slot k holds it, and any other slot what it held. */
  lemma StoreThenLoad(c: seq<Byte>, s: State)
    requires 0 <= s.pc && s.pc + 6 <= |c| && c[s.pc] == OP_STORE_LOCAL && c[s.pc + 3] == OP_LOAD_LOCAL && s.stack.Push?
    ensures var k, j := Slot(c, s.pc + 1), Slot(c, s.pc + 4);
      Reaches(c, s, 2, s.(pc := s.pc + 6, locals := s.locals[k := s.stack.top],
                          stack := Push(if j == k then s.stack.top else Get(s.locals, j), s.stack)))
  {
    var t := s.(pc := s.pc + 3, locals := s.locals[Slot(c, s.pc + 1) := s.stack.top]);
    RunStore(c, s);
    RunLoad(c, t);
    ReachesTrans(c, s, 1, t, 1, t.(pc := t.pc + 3, stack := Push(Get(t.locals, Slot(c, t.pc + 1)), t.stack)));
  }

  /** The same of globals, which are apart from the locals. */
  lemma StoreThenLoadGlobal(c: seq<Byte>, s: State)
    requires 0 <= s.pc && s.pc + 6 <= |c| && c[s.pc] == OP_STORE_GLOBAL && c[s.pc + 3] == OP_LOAD_GLOBAL && s.stack.Push?
    ensures var k, j := Slot(c, s.pc + 1), Slot(c, s.pc + 4);
      Reaches(c, s, 2, s.(pc := s.pc + 6, globals := s.globals[k := s.stack.top],
                          stack := Push(if j == k then s.stack.top else Get(s.globals, j), s.stack)))
  {
    var t := s.(pc := s.pc + 3, globals := s.globals[Slot(c, s.pc + 1) := s.stack.top]);
    OneStep(c, s);
    OneStep(c, t);
    ReachesTrans(c, s, 1, t, 1, t.(pc := t.pc + 3, stack := Push(Get(t.globals, Slot(c, t.pc + 1)), t.stack)));
  }

  // --------------------------------------------------------------- branches

  lemma RunJump(c: seq<Byte>, s: State, to: int)
    requires 0 <= s.pc && s.pc + 3 <= |c| && c[s.pc] == OP_JUMP && to == s.pc + 3 + Offset(c, s.pc + 1)
    ensures Reaches(c, s, 1, s.(pc := to))
  {
    OneStep(c, s);
  }

  /** A jump is taken on false, on nil and on zero, and on nothing else. */
  lemma RunJumpIfFalse(c: seq<Byte>, s: State)
    requires 0 <= s.pc && s.pc + 3 <= |c| && c[s.pc] == OP_JUMP_IF_FALSE && s.stack.Push?
    ensures var v := s.stack.top;
      var taken := v == Bool(false) || v == Nil || v == Int(0);
      Reaches(c, s, 1, s.(pc := if taken then s.pc + 3 + Offset(c, s.pc + 1) else s.pc + 3, stack := s.stack.below))
  {
    OneStep(c, s);
  }

  /** PUSH_BOOL; JUMP_IF_FALSE: the jump is taken exactly when the operand is zero. */
  lemma BoolThenJump(c: seq<Byte>, s: State)
    requires 0 <= s.pc && s.pc + 5 <= |c| && c[s.pc] == OP_PUSH_BOOL && c[s.pc + 2] == OP_JUMP_IF_FALSE
    ensures Reaches(c, s, 2, s.(pc := if c[s.pc + 1] == 0 then s.pc + 5 + Offset(c, s.pc + 3) else s.pc + 5))
  {
    var t := s.(pc := s.pc + 2, stack := Push(Bool(c[s.pc + 1] != 0), s.stack));
    OneStep(c, s);
    RunJumpIfFalse(c, t);
    ReachesTrans(c, s, 1, t, 1, s.(pc := if c[s.pc + 1] == 0 then s.pc + 5 + Offset(c, s.pc + 3) else s.pc + 5));
  }

  /** DUP; PUSH_INT 0; op; JUMP_IF_FALSE behind; POP; JUMP to */
  predicate Test(c: seq<Byte>, p: nat, op: int, to: int) {
    && p + 18 <= |c| && c[p] == OP_DUP && c[p + 1] == OP_PUSH_INT && I64(c, p + 2) == 0 && c[p + 10] == op
    && c[p + 11] == OP_JUMP_IF_FALSE && Offset(c, p + 12) == 4 && c[p + 14] == OP_POP
    && c[p + 15] == OP_JUMP && p + 18 + Offset(c, p + 16) == to
  }

  /** Less than zero to `neg`, equal to zero to `zero`, otherwise to `pos`, in two-way jumps. */
  predicate Cascade(c: seq<Byte>, p: nat, neg: int, zero: int, pos: int) {
    && Test(c, p, OP_LT, neg) && Test(c, p + 18, OP_EQ, zero)
    && p + 40 <= |c| && c[p + 36] == OP_POP && c[p + 37] == OP_JUMP && p + 40 + Offset(c, p + 38) == pos
  }

  /** The first four instructions of a test leave the value, and go on to its POP or behind it. */
  lemma TestDecides(c: seq<Byte>, s: State, op: int, to: int)
    requires s.pc >= 0 && Test(c, s.pc, op, to) && BinaryOp(op) && op != OP_PUSH_INT && s.stack.Push?
    requires Binary(op, s.stack.top, Int(0)).Bool?
    ensures Reaches(c, s, 4, s.(pc := if Binary(op, s.stack.top, Int(0)).b then s.pc + 14 else s.pc + 18))
  {
    var v := s.stack.top;
    var t := s.(pc := s.pc + 1, stack := Push(v, s.stack));
    var u := t.(pc := t.pc + 9, stack := Push(Int(0), t.stack));
    var w := u.(pc := u.pc + 1, stack := Push(Binary(op, v, Int(0)), s.stack));
    RunDup(c, s);
    RunPushInt(c, t);
    ReachesTrans(c, s, 1, t, 1, u);
    RunBinary(c, u, Int(0), v, s.stack);
    ReachesTrans(c, s, 2, u, 1, w);
    RunJumpIfFalse(c, w);
    ReachesTrans(c, s, 3, w, 1, s.(pc := if Binary(op, v, Int(0)).b then s.pc + 14 else s.pc + 18));
  }

  /** POP; JUMP to */
  lemma PopJump(c: seq<Byte>, s: State, to: int)
    requires 0 <= s.pc && s.pc + 4 <= |c| && c[s.pc] == OP_POP && c[s.pc + 1] == OP_JUMP && s.stack.Push?
    requires to == s.pc + 4 + Offset(c, s.pc + 2)
    ensures Reaches(c, s, 2, s.(pc := to, stack := s.stack.below))
  {
    var t := s.(pc := s.pc + 1, stack := s.stack.below);
    RunPop(c, s);
    RunJump(c, t, to);
    ReachesTrans(c, s, 1, t, 1, t.(pc := to));
  }

  lemma TestTaken(c: seq<Byte>, s: State, op: int, to: int)
    requires s.pc >= 0 && Test(c, s.pc, op, to) && BinaryOp(op) && op != OP_PUSH_INT && s.stack.Push?
    requires Binary(op, s.stack.top, Int(0)) == Bool(true)
    ensures Reaches(c, s, 6, s.(pc := to, stack := s.stack.below))
  {
    var t := s.(pc := s.pc + 14);
    TestDecides(c, s, op, to);
    PopJump(c, t, to);
    ReachesTrans(c, s, 4, t, 2, s.(pc := to, stack := s.stack.below));
  }

  lemma RunBranch(c: seq<Byte>, s: State, neg: int, zero: int, pos: int)
    requires 0 <= s.pc && s.pc + 7 <= |c| && c[s.pc] == OP_BRANCH_3 && s.stack.Push?
    requires neg == s.pc + 3 + Offset(c, s.pc + 1) && zero == s.pc + 5 + Offset(c, s.pc + 3) && pos == s.pc + 7 + Offset(c, s.pc + 5)
    ensures var n := AsInt(s.stack.top);
      Reaches(c, s, 1, s.(pc := if n < 0 then neg else if n == 0 then zero else pos, stack := s.stack.below))
  {
    OneStep(c, s);
  }

  /** The cascade goes to the first destination on a negative value, to the second on zero, and
      otherwise to the third. */
  lemma RunCascade(c: seq<Byte>, b: State, to: int, neg: int, zero: int, pos: int) returns (n: nat)
    requires b.pc >= 0 && Cascade(c, b.pc, neg, zero, pos) && b.stack.Push?
    requires to == if AsInt(b.stack.top) < 0 then neg else if AsInt(b.stack.top) == 0 then zero else pos
    ensures Reaches(c, b, n, b.(pc := to, stack := b.stack.below))
  {
    if AsInt(b.stack.top) < 0 {
      n := 6;
      TestTaken(c, b, OP_LT, to);
    } else {
      n := 10;
      CascadeOn(c, b, to, neg, zero, pos);
      TestDecides(c, b, OP_LT, neg);
      ReachesTrans(c, b, 4, b.(pc := b.pc + 18), 6, b.(pc := to, stack := b.stack.below));
    }
  }

  /** BRANCH_3 goes where the cascade of two-way tests with its three destinations goes, and leaves the same. */
  lemma BranchIsCascade(c: seq<Byte>, s: State, p: nat, neg: int, zero: int, pos: int) returns (n: nat, to: int)
    requires 0 <= s.pc && s.pc + 7 <= |c| && c[s.pc] == OP_BRANCH_3 && s.stack.Push?
    requires neg == s.pc + 3 + Offset(c, s.pc + 1) && zero == s.pc + 5 + Offset(c, s.pc + 3) && pos == s.pc + 7 + Offset(c, s.pc + 5)
    requires Cascade(c, p, neg, zero, pos)
    ensures Reaches(c, s, 1, s.(pc := to, stack := s.stack.below))
    ensures Reaches(c, s.(pc := p), n, s.(pc := to, stack := s.stack.below))
  {
    to := if AsInt(s.stack.top) < 0 then neg else if AsInt(s.stack.top) == 0 then zero else pos;
    RunBranch(c, s, neg, zero, pos);
    n := RunCascade(c, s.(pc := p), to, neg, zero, pos);
  }

  /** The second test and the last jump. */
  lemma CascadeOn(c: seq<Byte>, b: State, to: int, neg: int, zero: int, pos: int)
    requires b.pc >= 0 && Cascade(c, b.pc, neg, zero, pos) && b.stack.Push? && AsInt(b.stack.top) >= 0
    requires to == if AsInt(b.stack.top) == 0 then zero else pos
    ensures Reaches(c, b.(pc := b.pc + 18), 6, b.(pc := to, stack := b.stack.below))
  {
    var t := b.(pc := b.pc + 18);
    if AsInt(b.stack.top) == 0 {
      TestTaken(c, t, OP_EQ, zero);
    } else {
      TestDecides(c, t, OP_EQ, zero);
      PopJump(c, b.(pc := b.pc + 36), pos);
      ReachesTrans(c, t, 4, b.(pc := b.pc + 36), 2, b.(pc := to, stack := b.stack.below));
    }
  }

  // --------------------------------------------------------------- handlers

  /** TRY notes where its handler is and how deep the stack is; POP_TRY takes the latest note away. */
  lemma TryThenPopTry(c: seq<Byte>, s: State)
    requires 0 <= s.pc && s.pc + 4 <= |c| && c[s.pc] == OP_TRY && c[s.pc + 3] == OP_POP_TRY
    ensures Reaches(c, s, 1, s.(pc := s.pc + 3,
              handlers := s.handlers + [TryFrame(s.pc + 3 + Offset(c, s.pc + 1), Depth(s.stack))]))
    ensures Reaches(c, s, 2, s.(pc := s.pc + 4))
  {
    var t := s.(pc := s.pc + 3, handlers := s.handlers + [TryFrame(s.pc + 3 + Offset(c, s.pc + 1), Depth(s.stack))]);
    OneStep(c, s);
    OneStep(c, t);
    assert t.handlers[..|t.handlers| - 1] == s.handlers;
    ReachesTrans(c, s, 1, t, 1, s.(pc := s.pc + 4));
  }
}
