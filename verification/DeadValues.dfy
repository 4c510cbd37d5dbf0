/**
 Stacks with dead values. The canonical increment leaves its value on the stack and the fused
 one does not, so the two stacks differ by such values; instructions that use none of them do
 the same on both. Whole runs are in `DeadRuns`.
 */
module DeadValues {
  import opened Bytes
  import opened Vm
  import opened Optimizer
  import opened Passes
  import opened Relocation
  import opened BlockSemantics
  import opened Simulation
  import opened Fusion

  /** For each entry of the canonical stack, from the top, whether the optimized machine has
      it too; past the last mark it has all of them. */
  datatype Marks = AllLive | Mark(live: bool, rest: Marks)

  function Deeper(m: Marks): Marks {
    if m.Mark? then m.rest else AllLive
  }

  /** The stack without the entries marked dead. */
  function LiveView(s: Stack, m: Marks): Stack {
    if s.Empty? || m.AllLive? then s
    else if m.live then Push(s.top, LiveView(s.below, m.rest))
    else LiveView(s.below, m.rest)
  }

  predicate TopLive(m: Marks, n: nat) {
    n == 0 || m.AllLive? || (m.live && TopLive(m.rest, n - 1))
  }

  predicate SameCatches(hs: seq<TryFrame>, ks: seq<TryFrame>) {
    |hs| == |ks| && forall i :: 0 <= i < |hs| ==> hs[i].catchPc == ks[i].catchPc
  }

  /** `s` is `t` without the entries marked dead; a pending handler notes the depth of its own stack. */
  predicate UpTo(s: State, t: State, m: Marks) {
    && s == t.(stack := s.stack, handlers := s.handlers)
    && s.stack == LiveView(t.stack, m) && SameCatches(s.handlers, t.handlers)
  }

  predicate OutcomeUpTo(o: Outcome, r: Outcome, m: Marks) {
    match o
    case Running(s) => r.Running? && UpTo(s, r.s, m)
    case Halted(s) => r.Halted? && UpTo(s, r.s, m)
    case Yield(s, op, operands) => r.Yield? && r.op == op && r.operands == operands && UpTo(s, r.s, m)
    case ZeroStep(s) => r.ZeroStep? && UpTo(s, r.s, m)
    case _ => r == o
  }

  /** How many entries from the top an instruction reads. */
  function Uses(i: Instr): nat {
    if i.BinaryInstr? then 2
    else if i.Pop? || i.Dup? || i.StoreLocal? || i.StoreGlobal? || i.Neg? || i.JumpIfFalse? || i.Branch3?
            || i.StoreLocalPop? then 1
    else 0
  }

  /** The marks after an instruction: what it pushes is live. */
  function MarksAfter(i: Instr, m: Marks): Marks {
    match i
    case PushConst(_) => Mark(true, m)
    case LoadLocal(_) => Mark(true, m)
    case LoadGlobal(_) => Mark(true, m)
    case Dup => Mark(true, m)
    case Pop => Deeper(m)
    case BinaryInstr(_) => Mark(true, Deeper(Deeper(m)))
    case Neg => Mark(true, Deeper(m))
    case JumpIfFalse(_) => Deeper(m)
    case Branch3(_, _, _) => Deeper(m)
    case StoreLocalPop(_) => Deeper(m)
    case LoadLoadLocal(_, _) => Mark(true, Mark(true, m))
    case _ => m
  }

  // --------------------------------------------------------- one instruction

  lemma ViewTop(t: Stack, m: Marks)
    requires TopLive(m, 1)
    ensures LiveView(t, m).Empty? <==> t.Empty?
    ensures t.Push? ==> LiveView(t, m) == Push(t.top, LiveView(t.below, Deeper(m)))
  {
  }

  lemma StackInstrUpTo(i: Instr, len: nat, s: State, t: State, m: Marks)
    requires UpTo(s, t, m) && TopLive(m, Uses(i)) && Uses(i) <= 1
    requires !i.Try? && !i.PopTry?
    ensures OutcomeUpTo(Exec(i, len, s), Exec(i, len, t), MarksAfter(i, m))
  {
    if Uses(i) == 1 {
      ViewTop(t.stack, m);
    }
  }

  lemma BinaryUpTo(op: int, len: nat, s: State, t: State, m: Marks)
    requires UpTo(s, t, m) && TopLive(m, 2)
    ensures OutcomeUpTo(Exec(BinaryInstr(op), len, s), Exec(BinaryInstr(op), len, t), Mark(true, Deeper(Deeper(m))))
  {
    ViewTop(t.stack, m);
    if t.stack.Push? {
      ViewTop(t.stack.below, Deeper(m));
    }
  }

  /** An instruction that reads live entries only does the same on both stacks. */
  lemma InstrUpTo(i: Instr, len: nat, s: State, t: State, m: Marks)
    requires UpTo(s, t, m) && TopLive(m, Uses(i))
    ensures OutcomeUpTo(Exec(i, len, s), Exec(i, len, t), MarksAfter(i, m))
  {
    match i
    case BinaryInstr(op) => BinaryUpTo(op, len, s, t, m);
    case Try(_) =>
    case PopTry =>
    case _ => StackInstrUpTo(i, len, s, t, m);
  }

  // ------------------------------------------ runs of any machine, up to dead values

  /** Steps that read live entries only (`ok`) do the same on both stacks, and `next` tells the new marks. */
  ghost predicate Keeps(step: State -> Outcome, ok: (State, Marks) -> bool, next: (State, Marks) -> Marks) {
    forall s: State, t: State, m: Marks {:trigger UpTo(s, t, m)} ::
      UpTo(s, t, m) && ok(t, m) ==> OutcomeUpTo(step(s), step(t), next(t, m))
  }

  /** The next `n` steps read live entries only. */
  predicate LiveRun(step: State -> Outcome, ok: (State, Marks) -> bool, next: (State, Marks) -> Marks,
                    t: State, m: Marks, n: nat)
    decreases n
  {
    n == 0 || (ok(t, m) && (step(t).Running? ==> LiveRun(step, ok, next, step(t).s, next(t, m), n - 1)))
  }

  /** The marks when they are done. */
  function MarksAt(step: State -> Outcome, next: (State, Marks) -> Marks, t: State, m: Marks, n: nat): Marks
    decreases n
  {
    if n == 0 then m
    else if step(t).Running? then MarksAt(step, next, step(t).s, next(t, m), n - 1)
    else next(t, m)
  }

  lemma {:induction false} RunUpTo(step: State -> Outcome, ok: (State, Marks) -> bool, next: (State, Marks) -> Marks,
                                   s: State, t: State, m: Marks, n: nat)
    requires Keeps(step, ok, next) && UpTo(s, t, m) && LiveRun(step, ok, next, t, m, n)
    ensures OutcomeUpTo(Iterate(step, s, n), Iterate(step, t, n), MarksAt(step, next, t, m, n))
    decreases n
  {
    if n > 0 && step(t).Running? {
      RunUpTo(step, ok, next, step(s).s, step(t).s, next(t, m), n - 1);
    }
  }

  /** What makes every step read live entries only, and lasts, does so for whole runs. */
  lemma {:induction false} LiveWhile(step: State -> Outcome, ok: (State, Marks) -> bool, next: (State, Marks) -> Marks,
                                     inv: (State, Marks) -> bool, t: State, m: Marks, n: nat)
    requires forall u: State, k: Marks {:trigger inv(u, k)} :: inv(u, k) ==>
      ok(u, k) && (step(u).Running? ==> inv(step(u).s, next(u, k)))
    requires inv(t, m)
    ensures LiveRun(step, ok, next, t, m, n)
    ensures Iterate(step, t, n).Running? ==> inv(Iterate(step, t, n).s, MarksAt(step, next, t, m, n))
    decreases n
  {
    if n > 0 && step(t).Running? {
      LiveWhile(step, ok, next, inv, step(t).s, next(t, m), n - 1);
    }
  }

  // ---------------------------------------------------- canonical instructions

  /** Whether the instruction at the current place reads live entries only. */
  function UsesLive(c: seq<Byte>): (State, Marks) -> bool {
    (t: State, m: Marks) =>
      0 <= t.pc < |c| && t.pc + OptLen(c[t.pc]) <= |c| ==> TopLive(m, Uses(Decode(c, t.pc)))
  }

  function MarksNext(c: seq<Byte>): (State, Marks) -> Marks {
    (t: State, m: Marks) =>
      if 0 <= t.pc < |c| && t.pc + OptLen(c[t.pc]) <= |c| then MarksAfter(Decode(c, t.pc), m) else m
  }

  lemma StepUpTo(c: seq<Byte>, s: State, t: State, m: Marks)
    requires UpTo(s, t, m) && UsesLive(c)(t, m)
    ensures OutcomeUpTo(Step(c, true, s), Step(c, true, t), MarksNext(c)(t, m))
  {
    if 0 <= t.pc < |c| && t.pc + OptLen(c[t.pc]) <= |c| {
      InstrUpTo(Decode(c, t.pc), OptLen(c[t.pc]), s, t, m);
    }
  }

  lemma StepsKeep(c: seq<Byte>)
    ensures Keeps(Machine(c, true), UsesLive(c), MarksNext(c))
  {
    forall s: State, t: State, m: Marks {:trigger UpTo(s, t, m)} | UpTo(s, t, m) && UsesLive(c)(t, m)
      ensures OutcomeUpTo(Machine(c, true)(s), Machine(c, true)(t), MarksNext(c)(t, m))
    {
      StepUpTo(c, s, t, m);
    }
  }

  // ------------------------------------------------------------------ blocks

  /** The kind of the block at `t`; the end of the code counts as one instruction. */
  ghost function KindOf(x: Compiled, t: State): Kind {
    if 0 <= t.pc < |x.c.code| then x.In().KindAt(t.pc) else Copy
  }

  /** The marks `n` canonical instructions later. */
  ghost function MarksThen(c: seq<Byte>, t: State, m: Marks, n: nat): Marks {
    MarksAt(Machine(c, true), MarksNext(c), t, m, n)
  }

  ghost predicate LiveThen(c: seq<Byte>, t: State, m: Marks, n: nat) {
    LiveRun(Machine(c, true), UsesLive(c), MarksNext(c), t, m, n)
  }

  /** The canonical instructions of the block read live entries only. */
  ghost function BlockLive(x: Compiled): (State, Marks) -> bool {
    (t: State, m: Marks) => LiveThen(x.c.code, t, m, Work(KindOf(x, t)))
  }

  ghost function StepsOfBlock(x: Compiled): State -> nat {
    (t: State) => Work(KindOf(x, t))
  }

  /** The marks after a block: an increment leaves its value behind. */
  ghost function BlockMarks(x: Compiled): (State, Marks) -> Marks {
    (t: State, m: Marks) =>
      var after := MarksThen(x.c.code, t, m, Work(KindOf(x, t)));
      if KindOf(x, t) == Increment then Mark(false, Deeper(after)) else after
  }

  /** Dropping the value on one side is marking it dead on the other. */
  lemma DropIsDead(o: Outcome, r: Outcome, m: Marks)
    requires OutcomeUpTo(o, r, m) && o.Running? && o.s.stack.Push? && r.s.stack.Push? && TopLive(m, 1)
    ensures OutcomeUpTo(DropTop(o), r, Mark(false, Deeper(m)))
  {
    ViewTop(r.s.stack, m);
    var u := o.s.(stack := o.s.stack.below);
    assert LiveView(r.s.stack, Mark(false, Deeper(m))) == LiveView(r.s.stack.below, Deeper(m));
    assert UpTo(u, r.s, Mark(false, Deeper(m)));
  }

  lemma MarksOne(c: seq<Byte>, t: State, m: Marks, n: nat, t': State, m': Marks)
    requires n > 0 && Step(c, true, t) == Running(t') && m' == MarksNext(c)(t, m)
    ensures MarksThen(c, t, m, n) == MarksThen(c, t', m', n - 1)
  {
    assert Machine(c, true)(t) == Running(t');
  }

  lemma AddThenStoreMarks(c: seq<Byte>, t: State, m: Marks)
    requires 0 <= t.pc && t.pc + 4 <= |c| && c[t.pc] == OP_ADD && c[t.pc + 1] == OP_STORE_LOCAL
    requires t.stack.Push? && t.stack.below.Push?
    ensures TopLive(MarksThen(c, t, m, 2), 1)
  {
    var v := Binary(OP_ADD, t.stack.below.top, t.stack.top);
    var u := t.(pc := t.pc + 1, stack := Push(v, t.stack.below.below));
    var w := u.(pc := u.pc + 3, locals := u.locals[Slot(c, u.pc + 1) := v]);
    MarksOne(c, t, m, 2, u, Mark(true, Deeper(Deeper(m))));
    MarksOne(c, u, Mark(true, Deeper(Deeper(m))), 1, w, Mark(true, Deeper(Deeper(m))));
  }

  /** The mark left by the store of an increment is live: the value was just computed. */
  lemma IncrementMarks(c: seq<Byte>, t: State, m: Marks, n: nat)
    requires 0 <= t.pc && IncrementPattern(c, t.pc) && n == 4
    ensures TopLive(MarksThen(c, t, m, n), 1)
  {
    var u := t.(pc := t.pc + 3, stack := Push(Get(t.locals, Slot(c, t.pc + 1)), t.stack));
    var w := u.(pc := u.pc + 9, stack := Push(Int(I64(c, u.pc + 1)), u.stack));
    MarksOne(c, t, m, n, u, Mark(true, m));
    MarksOne(c, u, Mark(true, m), n - 1, w, Mark(true, Mark(true, m)));
    AddThenStoreMarks(c, w, Mark(true, Mark(true, m)));
  }

  lemma CanonicalUpTo(c: seq<Byte>, s: State, t: State, m: Marks, n: nat)
    requires UpTo(s, t, m) && LiveThen(c, t, m, n)
    ensures OutcomeUpTo(Run(c, true, s, n), Run(c, true, t, n), MarksThen(c, t, m, n))
  {
    StepsKeep(c);
    RunUpTo(Machine(c, true), UsesLive(c), MarksNext(c), s, t, m, n);
  }

  lemma IncrementUpTo(c: seq<Byte>, s: State, t: State, m: Marks, n: nat)
    requires 0 <= s.pc && IncrementPattern(c, s.pc) && UpTo(s, t, m) && LiveThen(c, t, m, n) && n == 4
    ensures OutcomeUpTo(DropTop(Run(c, true, s, n)), Run(c, true, t, n), Mark(false, Deeper(MarksThen(c, t, m, n))))
  {
    CanonicalUpTo(c, s, t, m, n);
    RunIncrement(c, s);
    RunIncrement(c, t);
    IncrementMarks(c, t, m, n);
    DropIsDead(Run(c, true, s, n), Run(c, true, t, n), MarksThen(c, t, m, n));
  }

  /** What the reference does at a block that is no trap. */
  lemma RefBlockIs(x: Compiled, s: State, k: Kind)
    requires x.Sound() && x.AtBlock(s.pc) && !ZeroHeader(x, s) && k == KindOf(x, s)
    ensures s.pc >= 0 && x.In().BlockAt(s.pc)
    ensures x.RefBlock(s) == if k == Increment then DropTop(Run(x.c.code, true, s, 4)) else Run(x.c.code, true, s, Work(k))
  {
    BlockSimulated(x, s);
  }

  /** One block of the reference against the canonical instructions on the larger stack. */
  lemma BlockUpTo(x: Compiled, s: State, t: State, m: Marks, n: nat)
    requires x.Sound() && x.Good(s) && UpTo(s, t, m) && !ZeroHeader(x, s)
    requires n == Work(KindOf(x, t)) && LiveThen(x.c.code, t, m, n)
    ensures OutcomeUpTo(x.RefBlock(s), Run(x.c.code, true, t, n), BlockMarks(x)(t, m))
  {
    CanonicalUpTo(x.c.code, s, t, m, n);
    if s.pc == |x.c.code| {
      EndHalts(x, s);
    } else {
      RefBlockIs(x, s, KindOf(x, t));
      if KindOf(x, t) == Increment {
        IncrementUpTo(x.c.code, s, t, m, n);
      }
    }
  }
}
