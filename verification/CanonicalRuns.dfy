/** Where the canonical machine can stand: on instruction starts, and strictly inside a block only between its ends. */
module CanonicalRuns {
  import opened Bytes
  import opened Vm
  import opened Optimizer
  import opened Relocation
  import opened BlockSemantics
  import opened Simulation

  // --------------------------------------------------- instruction starts

  /** Whole instructions, and every relative target is an instruction start or the end. */
  ghost predicate WellAimed(c: seq<Byte>) {
    && Whole(c, 0)
    && forall t :: t in TargetsFrom(c, 0) ==> 0 <= t <= |c| && Steps(c, 0, t)
  }

  ghost predicate AtInstruction(c: seq<Byte>, pc: int) {
    0 <= pc && Steps(c, 0, pc)
  }

  /** One canonical instruction neither traps nor reads outside the code, and leads to an
      instruction start. */
  lemma StepStays(c: seq<Byte>, s: State)
    requires WellAimed(c) && AtInstruction(c, s.pc)
    ensures !Step(c, true, s).ZeroStep? && !Step(c, true, s).Wild?
    ensures Step(c, true, s).Running? ==> AtInstruction(c, Step(c, true, s).s.pc)
  {
    if s.pc < |c| {
      WholeAt(c, 0, s.pc);
      StepsOne(c, s.pc);
      StepsTrans(c, 0, s.pc, s.pc + CanonLen(c[s.pc]));
      var o := Exec(Decode(c, s.pc), CanonLen(c[s.pc]), s);
      if o.Running? && o.s.pc != s.pc + CanonLen(c[s.pc]) {
        JumpTaken(c, s, o.s.pc);
        DirectTargetCollected(c, 0, s.pc, o.s.pc);
      }
    }
  }

  lemma JumpTaken(c: seq<Byte>, s: State, to: int)
    requires 0 <= s.pc < |c| && !SuperOp(c[s.pc]) && s.pc + CanonLen(c[s.pc]) <= |c|
    requires var o := Exec(Decode(c, s.pc), CanonLen(c[s.pc]), s);
      o.Running? && o.s.pc == to && to != s.pc + CanonLen(c[s.pc])
    ensures to in DirectTargets(c, s.pc)
  {
    var ts := DirectTargets(c, s.pc);
    if c[s.pc] == OP_BRANCH_3 {
      assert to == ts[0] || to == ts[1] || to == ts[2];
    } else {
      assert to == ts[0];
    }
  }

  /** The canonical machine never traps and never reads outside the code, however long it runs. */
  lemma {:induction false} CanonicalNeverTraps(c: seq<Byte>, s: State, n: nat)
    requires WellAimed(c) && AtInstruction(c, s.pc)
    ensures !Run(c, true, s, n).ZeroStep? && !Run(c, true, s, n).Wild?
    ensures Run(c, true, s, n).Running? ==> AtInstruction(c, Run(c, true, s, n).s.pc)
    decreases n
  {
    if n > 0 {
      StepStays(c, s);
      var o := Machine(c, true)(s);
      if o.Running? {
        CanonicalNeverTraps(c, o.s, n - 1);
      }
    }
  }

  // ------------------------------------------------------- inside a block

  /** Opcodes after which control goes on with the next instruction. */
  predicate GoesOn(op: int) {
    !SuperOp(op) && op != OP_JUMP && op != OP_JUMP_IF_FALSE && op != OP_BRANCH_3
  }

  /** The next `n` instructions go on one after the other and end before `end`. */
  predicate Straight(c: seq<Byte>, ip: nat, n: nat, end: nat)
    decreases n
  {
    if n == 0 then ip < end else ip < |c| && GoesOn(c[ip]) && Straight(c, ip + CanonLen(c[ip]), n - 1, end)
  }

  lemma StraightOne(c: seq<Byte>, ip: nat, next: nat, n: nat, end: nat)
    requires n > 0 && ip < |c| && GoesOn(c[ip]) && next == ip + CanonLen(c[ip]) && Straight(c, next, n - 1, end)
    ensures Straight(c, ip, n, end)
  {
  }

  lemma {:induction false} StraightRun(c: seq<Byte>, s: State, n: nat, end: nat, k: nat)
    requires 0 <= s.pc && Straight(c, s.pc, n, end) && k <= n && Run(c, true, s, k).Running?
    ensures s.pc + k <= Run(c, true, s, k).s.pc < end
    decreases n
  {
    if k > 0 {
      var o := Machine(c, true)(s);
      assert o == Step(c, true, s);
      StraightRun(c, o.s, n - 1, end, k - 1);
    } else if n > 0 {
      StraightEnds(c, s.pc, n, end);
    }
  }

  lemma {:induction false} StraightEnds(c: seq<Byte>, ip: nat, n: nat, end: nat)
    requires Straight(c, ip, n, end)
    ensures ip < end
    decreases n
  {
    if n > 0 {
      StraightEnds(c, ip + CanonLen(c[ip]), n - 1, end);
    }
  }

  /** LOAD, PUSH_INT, compare; LOAD, LOAD, compare; AND: seven instructions of 21 bytes. */
  lemma HalfStraight(c: seq<Byte>, ip: nat, n: nat, end: nat)
    requires ip + 21 <= |c| && Straight(c, ip + 21, n, end)
    requires c[ip] == OP_LOAD_LOCAL && c[ip + 3] == OP_PUSH_INT && c[ip + 12] in {OP_LT, OP_GT}
    requires c[ip + 13] == OP_LOAD_LOCAL && c[ip + 16] == OP_LOAD_LOCAL && c[ip + 19] in {OP_LT, OP_GT}
    requires c[ip + 20] == OP_TERNARY_MIN
    ensures Straight(c, ip, n + 7, end)
  {
    StraightOne(c, ip + 20, ip + 21, n + 1, end);
    StraightOne(c, ip + 19, ip + 20, n + 2, end);
    StraightOne(c, ip + 16, ip + 19, n + 3, end);
    StraightOne(c, ip + 13, ip + 16, n + 4, end);
    StraightOne(c, ip + 12, ip + 13, n + 5, end);
    StraightOne(c, ip + 3, ip + 12, n + 6, end);
    StraightOne(c, ip, ip + 3, n + 7, end);
  }

  lemma LoopStraight(c: seq<Byte>, ip: nat, work: nat)
    requires LoopPattern(c, ip) && work == 15
    ensures Straight(c, ip, work, ip + 46)
  {
    StraightOne(c, ip + 42, ip + 43, work - 14, ip + 46);
    HalfStraight(c, ip + 21, work - 14, ip + 46);
    HalfStraight(c, ip, work - 7, ip + 46);
  }

  lemma MulAddAStraight(c: seq<Byte>, ip: nat, work: nat)
    requires MulAddAPattern(c, ip) && work == 6
    ensures Straight(c, ip, work, ip + 15)
  {
    StraightOne(c, ip + 11, ip + 14, work - 5, ip + 15);
    StraightOne(c, ip + 10, ip + 11, work - 4, ip + 15);
    StraightOne(c, ip + 7, ip + 10, work - 3, ip + 15);
    StraightOne(c, ip + 6, ip + 7, work - 2, ip + 15);
    StraightOne(c, ip + 3, ip + 6, work - 1, ip + 15);
    StraightOne(c, ip, ip + 3, work, ip + 15);
  }

  lemma MulAddBStraight(c: seq<Byte>, ip: nat, work: nat)
    requires MulAddBPattern(c, ip) && work == 6
    ensures Straight(c, ip, work, ip + 15)
  {
    StraightOne(c, ip + 11, ip + 14, work - 5, ip + 15);
    StraightOne(c, ip + 10, ip + 11, work - 4, ip + 15);
    StraightOne(c, ip + 9, ip + 10, work - 3, ip + 15);
    StraightOne(c, ip + 6, ip + 9, work - 2, ip + 15);
    StraightOne(c, ip + 3, ip + 6, work - 1, ip + 15);
    StraightOne(c, ip, ip + 3, work, ip + 15);
  }

  lemma AddStoreStraight(c: seq<Byte>, ip: nat, work: nat)
    requires AddStorePattern(c, ip) && work == 4
    ensures Straight(c, ip, work, ip + 11)
  {
    StraightOne(c, ip + 7, ip + 10, work - 3, ip + 11);
    StraightOne(c, ip + 6, ip + 7, work - 2, ip + 11);
    StraightOne(c, ip + 3, ip + 6, work - 1, ip + 11);
    StraightOne(c, ip, ip + 3, work, ip + 11);
  }

  lemma IncrementStraight(c: seq<Byte>, ip: nat, work: nat)
    requires IncrementPattern(c, ip) && work == 3
    ensures Straight(c, ip, work, ip + 16)
  {
    StraightOne(c, ip + 12, ip + 13, work - 2, ip + 16);
    StraightOne(c, ip + 3, ip + 12, work - 1, ip + 16);
    StraightOne(c, ip, ip + 3, work, ip + 16);
  }

  /** Control stays strictly inside a block until its last instruction. */
  lemma BlockIsStraight(a: Input, ip: nat, work: nat)
    requires a.BlockAt(ip) && work == Work(a.KindAt(ip)) - 1
    ensures Straight(a.c, ip, work, a.Next(ip))
  {
    match a.KindAt(ip)
    case LoopHeader => LoopStraight(a.c, ip, work);
    case MulAddA => MulAddAStraight(a.c, ip, work);
    case MulAddB => MulAddBStraight(a.c, ip, work);
    case AddStore => AddStoreStraight(a.c, ip, work);
    case Increment => IncrementStraight(a.c, ip, work);
    case StorePop => StraightOne(a.c, ip, ip + 3, work, ip + 4);
    case LoadLoad => StraightOne(a.c, ip, ip + 3, work, ip + 6);
    case _ =>
  }
}
