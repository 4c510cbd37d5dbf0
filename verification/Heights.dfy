/**
 A condition on the chunk itself under which no instruction uses a value that a fused increment
 left: a height for every instruction, how many values from the top are surely live when control
 gets there. It is checked instruction by instruction, as a bytecode verifier checks stack maps.
 */
module Heights {
  import opened Bytes
  import opened Vm
  import opened Optimizer
  import opened Passes
  import opened Relocation
  import opened CanonicalRuns
  import opened Simulation
  import opened BlockSemantics
  import opened Fusion
  import opened FastCalls
  import opened Calls
  import opened CallRuns
  import opened DeadValues
  import opened DeadRuns
  import opened Pipeline

  /** The live values from the top after an instruction that had `k` before it. */
  function HeightAfter(i: Instr, k: nat): nat
    requires Uses(i) <= k
  {
    match i
    case PushConst(_) => k + 1
    case LoadLocal(_) => k + 1
    case LoadGlobal(_) => k + 1
    case Dup => k + 1
    case Pop => k - 1
    case BinaryInstr(_) => k - 1
    case JumpIfFalse(_) => k - 1
    case Branch3(_, _, _) => k - 1
    case StoreLocalPop(_) => k - 1
    case LoadLoadLocal(_, _) => k + 2
    case _ => k
  }

  /** What instruction at `ip` uses is live, and where it leads the heights claim no more than is left. */
  predicate InstrCertified(c: seq<Byte>, h: seq<nat>, ip: nat)
    requires |h| == |c| + 1 && ip < |c| && !SuperOp(c[ip]) && ip + CanonLen(c[ip]) <= |c|
  {
    var i, next := Decode(c, ip), ip + CanonLen(c[ip]);
    if c[ip] == OP_CALL then c[ip + 3] <= h[ip] && h[next] <= h[ip] - c[ip + 3] + 1
    else if c[ip] == OP_RET then 1 <= h[ip]
    else if i.External? || i.Halt? then true
    else
      && Uses(i) <= h[ip]
      && (!i.Jump? ==> h[next] <= HeightAfter(i, h[ip]))
      && (!i.Try? ==> forall t :: t in DirectTargets(c, ip) && 0 <= t <= |c| ==> h[t] <= HeightAfter(i, h[ip]))
  }

  ghost predicate AllCertified(c: seq<Byte>, h: seq<nat>) {
    && |h| == |c| + 1
    && forall ip: nat {:trigger Steps(c, 0, ip)} :: Steps(c, 0, ip) && ip < |c| ==>
         !SuperOp(c[ip]) && ip + CanonLen(c[ip]) <= |c| && InstrCertified(c, h, ip)
  }

  /** All instructions are, nothing is claimed behind a fused increment, and functions start with nothing. */
  ghost predicate Certified(x: Compiled, h: seq<nat>) {
    var c := x.c.code;
    && AllCertified(c, h)
    && (forall i: nat :: i < Blocks(x.lay) && Adjacent(x.In(), x.lay, i) && x.In().KindAt(x.lay.starts[i]) == Increment ==>
          x.lay.starts[i + 1] <= |c| && h[x.lay.starts[i + 1]] == 0)
    && (forall f :: 0 <= f < |x.c.functionTable| && x.c.functionTable[f] <= |c| ==> h[x.c.functionTable[f]] == 0)
    && (x.c.functionTable == [] ==>
          forall ip: nat {:trigger Steps(c, 0, ip)} :: Steps(c, 0, ip) && ip + 4 <= |c| && c[ip] == OP_CALL ==>
            Slot(c, ip + 1) <= |c| && h[Slot(c, ip + 1)] == 0)
  }

  // -------------------------------------------------------- one instruction

  lemma {:induction false} TopLiveLess(m: Marks, n: nat, k: nat)
    requires TopLive(m, n) && k <= n
    ensures TopLive(m, k)
    decreases k
  {
    if k > 0 && m.Mark? {
      TopLiveLess(m.rest, n - 1, k - 1);
    }
  }

  lemma MarksStayLive(i: Instr, m: Marks, k: nat)
    requires Uses(i) <= k && TopLive(m, k)
    ensures TopLive(MarksAfter(i, m), HeightAfter(i, k))
  {
    if k > 0 {
      TopLiveLess(m, k, k - 1);
    }
  }

  /** At an instruction start with as many live values as its height says. */
  ghost predicate Claimed(c: seq<Byte>, h: seq<nat>, s: State, m: Marks) {
    |h| == |c| + 1 && AtInstruction(c, s.pc) && s.pc <= |c| && TopLive(m, h[s.pc])
  }

  lemma InstrClaimed(c: seq<Byte>, h: seq<nat>, s: State, m: Marks)
    requires WellAimed(c) && Claimed(c, h, s, m) && s.pc < |c|
    requires !SuperOp(c[s.pc]) && s.pc + CanonLen(c[s.pc]) <= |c| && InstrCertified(c, h, s.pc)
    ensures UsesLive(c)(s, m)
    ensures var o := Step(c, true, s); o.Running? ==> Claimed(c, h, o.s, MarksNext(c)(s, m))
  {
    var i, len := Decode(c, s.pc), CanonLen(c[s.pc]);
    var o := Exec(i, len, s);
    StepStays(c, s);
    if !i.External? && !i.Halt? {
      TopLiveLess(m, h[s.pc], Uses(i));
      if o.Running? {
        Successor(c, h, s, o.s.pc);
        MarksStayLive(i, m, h[s.pc]);
        InstructionInside(c, o.s.pc);
        TopLiveLess(MarksAfter(i, m), HeightAfter(i, h[s.pc]), h[o.s.pc]);
      }
    } else {
      assert Uses(i) == 0;
    }
  }

  lemma InstructionInside(c: seq<Byte>, pc: int)
    requires WellAimed(c) && AtInstruction(c, pc)
    ensures pc <= |c|
  {
    WholeAt(c, 0, pc);
  }

  /** Where an instruction leads, the height is at most what it leaves. */
  lemma Successor(c: seq<Byte>, h: seq<nat>, s: State, to: int)
    requires WellAimed(c) && 0 <= s.pc < |c| && |h| == |c| + 1
    requires !SuperOp(c[s.pc]) && s.pc + CanonLen(c[s.pc]) <= |c| && InstrCertified(c, h, s.pc)
    requires !Decode(c, s.pc).External? && !Decode(c, s.pc).Halt? && AtInstruction(c, to)
    requires var o := Exec(Decode(c, s.pc), CanonLen(c[s.pc]), s); o.Running? && o.s.pc == to
    ensures to <= |c| && Uses(Decode(c, s.pc)) <= h[s.pc] && h[to] <= HeightAfter(Decode(c, s.pc), h[s.pc])
  {
    InstructionInside(c, to);
    if to != s.pc + CanonLen(c[s.pc]) {
      JumpTaken(c, s, to);
    } else if c[s.pc] == OP_JUMP {
      assert to in DirectTargets(c, s.pc);
    }
  }

  // -------------------------------------------------------------- one block

  ghost function Claims(c: seq<Byte>, h: seq<nat>): (State, Marks) -> bool {
    (s: State, m: Marks) => Claimed(c, h, s, m)
  }

  lemma StepClaimed(c: seq<Byte>, h: seq<nat>, s: State, m: Marks)
    requires WellAimed(c) && AllCertified(c, h) && Claimed(c, h, s, m)
    ensures UsesLive(c)(s, m)
    ensures var o := Step(c, true, s); o.Running? ==> Claimed(c, h, o.s, MarksNext(c)(s, m))
  {
    if s.pc < |c| {
      InstrClaimed(c, h, s, m);
    }
  }

  lemma RunClaimed(c: seq<Byte>, h: seq<nat>, s: State, m: Marks, n: nat)
    requires WellAimed(c) && AllCertified(c, h) && Claimed(c, h, s, m)
    ensures LiveThen(c, s, m, n)
    ensures var o := Run(c, true, s, n); o.Running? ==> Claimed(c, h, o.s, MarksThen(c, s, m, n))
  {
    var inv := Claims(c, h);
    forall u: State, k: Marks {:trigger inv(u, k)} | inv(u, k)
      ensures UsesLive(c)(u, k)
      ensures Machine(c, true)(u).Running? ==> inv(Machine(c, true)(u).s, MarksNext(c)(u, k))
    {
      StepClaimed(c, h, u, k);
    }
    LiveWhile(Machine(c, true), UsesLive(c), MarksNext(c), inv, s, m, n);
  }

  lemma StepsAreWork(x: Compiled, s: State)
    requires x.Sound() && x.Good(s)
    ensures StepsOfBlock(x)(s) == BlockWork(x)(s)
  {
    NotABlock(x);
    if s.pc != |x.c.code| {
      BlockSimulated(x, s);
    }
  }

  /** The canonical run of a block, then the call or return after it. */
  lemma BlockRunIs(x: Compiled, sizes: seq<nat>, u: Thread)
    requires x.Sound() && GoodThread(x, u)
    ensures BlockRun(x, sizes, u) == Source(x, sizes).Resume(Run(x.c.code, true, u.s, StepsOfBlock(x)(u.s)), u.rest)
  {
    StepsAreWork(x, u.s);
    WorkIsPositive(x, u.s);
    if BlockWork(x)(u.s) > 1 {
      BlockNeverHandsOver(x, u.s);
    }
    ResumeRun(Source(x, sizes), u, StepsOfBlock(x)(u.s));
  }

  /** The canonical machine leaves a block for another place between blocks. */
  lemma RunStaysGood(x: Compiled, s: State, o: Outcome)
    requires x.Sound() && x.Good(s) && o == Run(x.c.code, true, s, BlockWork(x)(s)) && o.Running?
    ensures x.Good(o.s)
    ensures s.pc >= 0 && x.AtBlock(s.pc) && x.In().BlockAt(s.pc)
    ensures x.In().KindAt(s.pc) == Increment ==> o.s.pc == s.pc + 16
  {
    if s.pc == |x.c.code| {
      NotABlock(x);
      EndHalts(x, s);
    }
    BlockSimulated(x, s);
    ReferenceBlockIff(x, s);
    if x.In().KindAt(s.pc) == Increment {
      RunIncrement(x.c.code, s);
      GoodKept(x, s);
    } else if ZeroHeader(x, s) {
      var i := HeaderBlockOf(x, s);
      ZeroHeaderExits(x, s, i, BlockWork(x)(s));
    } else {
      GoodKept(x, s);
    }
  }

  lemma HeaderArm(a: Input, ip: nat)
    requires a.BlockAt(ip) && a.KindAt(ip) == LoopHeader
    ensures ip + 46 <= |a.c| && |a.ArmsAt(ip)| == 1 && a.ArmsAt(ip)[0].target == ip + 46 + Offset(a.c, ip + 44)
  {
  }

  lemma ExitIsGood(x: Compiled, i: nat, t: State)
    requires x.Sound() && i < Blocks(x.lay) && Adjacent(x.In(), x.lay, i) && x.In().KindAt(x.lay.starts[i]) == LoopHeader
    requires x.lay.starts[i] + 46 <= |x.c.code| && t.pc == x.lay.starts[i] + 46 + Offset(x.c.code, x.lay.starts[i] + 44)
    ensures x.Good(t)
  {
    HeaderArm(x.In(), x.lay.starts[i]);
    GoodArm(x, i, 0, t);
  }

  lemma HeaderBlockOf(x: Compiled, s: State) returns (i: nat)
    requires x.Sound() && ZeroHeader(x, s)
    ensures i < Blocks(x.lay) && Adjacent(x.In(), x.lay, i) && x.lay.starts[i] == s.pc
  {
    i :| i < Blocks(x.lay) && Adjacent(x.In(), x.lay, i) && x.lay.starts[i] == s.pc;
  }

  /** A range loop with step zero is left by its exit. */
  lemma ZeroHeaderExits(x: Compiled, s: State, i: nat, n: nat)
    requires x.Sound() && ZeroHeader(x, s) && n == 16
    requires i < Blocks(x.lay) && Adjacent(x.In(), x.lay, i) && x.lay.starts[i] == s.pc
    ensures Run(x.c.code, true, s, n).Running? && x.Good(Run(x.c.code, true, s, n).s)
  {
    assert EmittedHeader(x.c.code, s.pc);
    RunHeader(x.c.code, s);
    ExitIsGood(x, i, s.(pc := s.pc + 46 + Offset(x.c.code, s.pc + 44)));
  }

  // -------------------------------------------------- one block of a thread

  /** What is left of the height at a return address while the call is pending. */
  function Kept(h: seq<nat>, back: int): nat
    requires 0 <= back < |h|
  {
    if h[back] == 0 then 0 else h[back] - 1
  }

  ghost predicate FrameClaimed(c: seq<Byte>, h: seq<nat>, f: Frame, m: Marks) {
    |h| == |c| + 1 && AtInstruction(c, f.back) && f.back <= |c| && TopLive(m, Kept(h, f.back))
  }

  /** Everywhere in the thread as many values are live as the heights claim. */
  ghost predicate ThreadClaimed(c: seq<Byte>, h: seq<nat>, u: Thread, n: Notes) {
    && Claimed(c, h, u.s, n.now) && |n.under| == |u.rest.frames|
    && forall i :: 0 <= i < |u.rest.frames| ==> FrameClaimed(c, h, u.rest.frames[i], n.under[i])
  }

  lemma {:induction false} DropsLive(m: Marks, n: nat, k: nat)
    requires TopLive(m, n + k)
    ensures TopLive(DropMarks(m, n), k)
    decreases n
  {
    if n > 0 {
      if m.AllLive? {
        DropsLive(AllLive, n - 1, k);
      } else {
        DropsLive(m.rest, n - 1, k);
      }
    }
  }

  lemma WellAimedCode(x: Compiled)
    requires x.Sound()
    ensures WellAimed(x.c.code)
  {
  }

  lemma GoodIsInstruction(x: Compiled, u: Thread)
    requires x.Sound() && GoodThread(x, u)
    ensures AtInstruction(x.c.code, u.s.pc) && u.s.pc <= |x.c.code|
    ensures forall i :: 0 <= i < |u.rest.frames| ==>
      AtInstruction(x.c.code, u.rest.frames[i].back) && u.rest.frames[i].back <= |x.c.code|
  {
    WellAimedCode(x);
    GoodIsAtInstructions(x, u);
    InstructionInside(x.c.code, u.s.pc);
    forall i | 0 <= i < |u.rest.frames| ensures u.rest.frames[i].back <= |x.c.code| {
      InstructionInside(x.c.code, u.rest.frames[i].back);
    }
  }

  /** The instructions of the block, and the call or return after them, use live values only. */
  lemma ClaimedIsLive(x: Compiled, h: seq<nat>, u: Thread, n: Notes)
    requires x.Sound() && Certified(x, h) && ThreadClaimed(x.c.code, h, u, n)
    ensures ThreadLive(x, u, n)
  {
    WellAimedCode(x);
    RunClaimed(x.c.code, h, u.s, n.now, Work(KindOf(x, u.s)));
    HandsClaimed(x.c.code, h, u, n.now);
  }

  lemma HandsClaimed(c: seq<Byte>, h: seq<nat>, u: Thread, m: Marks)
    requires AllCertified(c, h) && Claimed(c, h, u.s, m)
    ensures HandsLive(c, u, m)
  {
    if u.s.pc < |c| {
      assert Steps(c, 0, u.s.pc);
      if c[u.s.pc] == OP_CALL {
        TopLiveLess(m, h[u.s.pc], c[u.s.pc + 3]);
      } else if c[u.s.pc] == OP_RET {
        TopLiveLess(m, h[u.s.pc], 1);
      }
    }
  }

  /** After a block without call or return the heights are right again; behind an increment they claim nothing. */
  lemma BlockClaimed(x: Compiled, h: seq<nat>, s: State, m: Marks, o: Outcome)
    requires x.Sound() && Certified(x, h) && x.Good(s) && Claimed(x.c.code, h, s, m)
    requires o == Run(x.c.code, true, s, StepsOfBlock(x)(s)) && o.Running?
    ensures Claimed(x.c.code, h, o.s, BlockMarks(x)(s, m)) && x.Good(o.s)
  {
    WellAimedCode(x);
    StepsAreWork(x, s);
    RunClaimed(x.c.code, h, s, m, StepsOfBlock(x)(s));
    RunStaysGood(x, s, o);
    if x.In().KindAt(s.pc) == Increment {
      var i: nat :| i < Blocks(x.lay) && Adjacent(x.In(), x.lay, i) && x.lay.starts[i] == s.pc;
      NothingBehindIncrement(x, h, i);
    }
  }

  lemma NothingBehindIncrement(x: Compiled, h: seq<nat>, i: nat)
    requires Certified(x, h) && i < Blocks(x.lay) && Adjacent(x.In(), x.lay, i)
    requires x.In().KindAt(x.lay.starts[i]) == Increment
    ensures x.lay.starts[i] + 16 <= |x.c.code| && h[x.lay.starts[i] + 16] == 0
  {
  }

  lemma EnteredClaimed(x: Compiled, h: seq<nat>, u: Thread, n: Notes, call: Call, argc: nat)
    requires ThreadClaimed(x.c.code, h, u, n) && call.Call? && call.argc == argc <= h[u.s.pc]
    requires AtInstruction(x.c.code, call.entry) && call.entry <= |x.c.code| && h[call.entry] == 0
    requires AtInstruction(x.c.code, call.back) && call.back <= |x.c.code| && h[call.back] <= h[u.s.pc] - argc + 1
    ensures ThreadClaimed(x.c.code, h, Entered(u.s, u.rest, call), NotesEntered(n, argc))
  {
    DropsLive(n.now, argc, h[u.s.pc] - argc);
    TopLiveLess(DropMarks(n.now, argc), h[u.s.pc] - argc, Kept(h, call.back));
  }

  lemma ReturnedClaimed(c: seq<Byte>, h: seq<nat>, u: Thread, n: Notes, v: Value)
    requires ThreadClaimed(c, h, u, n) && u.rest.frames != []
    ensures ThreadClaimed(c, h, Returned(u.s, u.rest, v), NotesReturned(n))
  {
    var k := |u.rest.frames| - 1;
    assert FrameClaimed(c, h, u.rest.frames[k], n.under[k]);
  }

  /** What a block that hands over to a call or return hands over. */
  lemma HandedOverHere(x: Compiled, sizes: seq<nat>, u: Thread)
    requires x.Sound() && CallsAreSound(x) && GoodThread(x, u)
    requires BlockRun(x, sizes, u).Going? && !Run(x.c.code, true, u.s, StepsOfBlock(x)(u.s)).Running?
    ensures 0 <= u.s.pc < |x.c.code| && (x.c.code[u.s.pc] == OP_RET || x.c.code[u.s.pc] == OP_CALL)
    ensures BlockRun(x, sizes, u) == if x.c.code[u.s.pc] == OP_RET then Leave(u.s, u.rest, true)
                                     else Enter(u.s, u.rest, Called(x.c.code, x.c.functionTable, sizes, u.s.pc))
  {
    var o := Run(x.c.code, true, u.s, StepsOfBlock(x)(u.s));
    BlockRunIs(x, sizes, u);
    StepsAreWork(x, u.s);
    WorkIsPositive(x, u.s);
    if StepsOfBlock(x)(u.s) > 1 {
      BlockNeverHandsOver(x, u.s);
    } else {
      OneStep(x.c.code, u.s);
      StepYields(x.c.code, u.s);
      GoodIsInstruction(x, u);
      assert Steps(x.c.code, 0, u.s.pc);
    }
  }

  lemma ReturnKeepsClaims(x: Compiled, h: seq<nat>, u: Thread, n: Notes)
    requires x.Sound() && GoodThread(x, u) && ThreadClaimed(x.c.code, h, u, n)
    ensures var r := Leave(u.s, u.rest, true);
      r.Going? ==> GoodThread(x, r.t) && ThreadClaimed(x.c.code, h, r.t, NotesReturned(n))
  {
    if u.rest.frames != [] {
      var v := if u.s.stack.Push? then u.s.stack.top else Nil;
      ReturnedIsGood(x, u.s, u.rest, v);
      ReturnedClaimed(x.c.code, h, u, n, v);
    }
  }

  lemma CallKeepsClaims(x: Compiled, sizes: seq<nat>, h: seq<nat>, u: Thread, n: Notes)
    requires x.Sound() && CallsAreSound(x) && Certified(x, h) && GoodThread(x, u) && ThreadClaimed(x.c.code, h, u, n)
    requires 0 <= u.s.pc && u.s.pc + 4 <= |x.c.code| && x.c.code[u.s.pc] == OP_CALL
    ensures var r := Enter(u.s, u.rest, Called(x.c.code, x.c.functionTable, sizes, u.s.pc));
      r.Going? ==> GoodThread(x, r.t) && ThreadClaimed(x.c.code, h, r.t, NotesEntered(n, x.c.code[u.s.pc + 3]))
  {
    var call := Called(x.c.code, x.c.functionTable, sizes, u.s.pc);
    EnterIs(u.s, u.rest, call);
    if Enter(u.s, u.rest, call).Going? {
      EnteredKeepsClaims(x, sizes, h, u, n, call);
    }
  }

  lemma EnteredKeepsClaims(x: Compiled, sizes: seq<nat>, h: seq<nat>, u: Thread, n: Notes, call: Call)
    requires x.Sound() && CallsAreSound(x) && Certified(x, h) && GoodThread(x, u) && ThreadClaimed(x.c.code, h, u, n)
    requires 0 <= u.s.pc && u.s.pc + 4 <= |x.c.code| && x.c.code[u.s.pc] == OP_CALL
    requires call == Called(x.c.code, x.c.functionTable, sizes, u.s.pc) && call.Call?
    ensures GoodThread(x, Entered(u.s, u.rest, call))
    ensures ThreadClaimed(x.c.code, h, Entered(u.s, u.rest, call), NotesEntered(n, x.c.code[u.s.pc + 3]))
  {
    CallPlaces(x, sizes, h, u.s.pc, call);
    EnteredIsGood(x, u.s, u.rest, call);
    EnteredClaimed(x, h, u, n, call, x.c.code[u.s.pc + 3]);
  }

  /** Where a certified call goes and where it returns to. */
  lemma CallPlaces(x: Compiled, sizes: seq<nat>, h: seq<nat>, ip: nat, call: Call)
    requires x.Sound() && CallsAreSound(x) && Certified(x, h) && x.AtBlock(ip)
    requires ip + 4 <= |x.c.code| && x.c.code[ip] == OP_CALL
    requires call == Called(x.c.code, x.c.functionTable, sizes, ip) && call.Call?
    ensures GoodPlace(x, call.entry) && GoodPlace(x, call.back) && call.argc == x.c.code[ip + 3] <= h[ip]
    ensures AtInstruction(x.c.code, call.entry) && call.entry <= |x.c.code| && h[call.entry] == 0
    ensures AtInstruction(x.c.code, call.back) && call.back <= |x.c.code| && h[call.back] <= h[ip] - call.argc + 1
  {
    CallStaysBetween(x, sizes, ip, call);
    CallHeights(x, sizes, h, ip, call);
    PlaceIsInstruction(x, call.entry);
    PlaceIsInstruction(x, call.back);
  }

  lemma CallStaysBetween(x: Compiled, sizes: seq<nat>, ip: nat, call: Call)
    requires x.Sound() && CallsAreSound(x) && x.AtBlock(ip) && ip < |x.c.code| && x.c.code[ip] == OP_CALL
    requires call == Called(x.c.code, x.c.functionTable, sizes, ip) && call.Call?
    ensures GoodPlace(x, call.entry) && GoodPlace(x, call.back)
    ensures Steps(x.c.code, 0, ip) && call.entry <= |x.c.code| && call.back <= |x.c.code|
  {
    var i: nat :| i < Blocks(x.lay) && Adjacent(x.In(), x.lay, i) && x.lay.starts[i] == ip;
    StartsReached(x.In(), x.lay, i);
    CallIsOneBlock(x.In(), ip);
    SmallKinds(x.In(), ip);
    CallStaysGood(x, sizes, i);
    PlaceInside(x, call.entry);
    PlaceInside(x, call.back);
  }

  lemma PlaceInside(x: Compiled, pc: int)
    requires x.Sound() && GoodPlace(x, pc)
    ensures pc <= |x.c.code|
  {
  }

  lemma CallHeights(x: Compiled, sizes: seq<nat>, h: seq<nat>, ip: nat, call: Call)
    requires Certified(x, h) && Steps(x.c.code, 0, ip) && ip + 4 <= |x.c.code| && x.c.code[ip] == OP_CALL
    requires call == Called(x.c.code, x.c.functionTable, sizes, ip) && call.Call?
    requires call.entry <= |x.c.code|
    ensures call.argc == x.c.code[ip + 3] <= h[ip] && h[call.entry] == 0
    ensures call.back <= |x.c.code| && h[call.back] <= h[ip] - call.argc + 1
  {
    assert InstrCertified(x.c.code, h, ip);
  }

  /** One block of the canonical run keeps the claims, with the notes that it makes. */
  lemma BlockKeepsClaims(x: Compiled, sizes: seq<nat>, h: seq<nat>, u: Thread, n: Notes)
    requires x.Sound() && CallsAreSound(x) && Certified(x, h) && GoodThread(x, u) && ThreadClaimed(x.c.code, h, u, n)
    requires BlockRun(x, sizes, u).Going?
    ensures GoodThread(x, BlockRun(x, sizes, u).t)
    ensures ThreadClaimed(x.c.code, h, BlockRun(x, sizes, u).t, NotesAfter(x, sizes, u, n))
  {
    var o := Run(x.c.code, true, u.s, StepsOfBlock(x)(u.s));
    if o.Running? {
      BlockRunIs(x, sizes, u);
      BlockClaimed(x, h, u.s, n.now, o);
      RunningIsNoCall(x, u.s);
    } else {
      HandedOverHere(x, sizes, u);
      if x.c.code[u.s.pc] == OP_RET {
        ReturnKeepsClaims(x, h, u, n);
      } else {
        GoodIsInstruction(x, u);
        WholeAt(x.c.code, 0, u.s.pc);
        CallKeepsClaims(x, sizes, h, u, n);
      }
    }
  }

  lemma RunningIsNoCall(x: Compiled, s: State)
    requires x.Sound() && x.Good(s) && Run(x.c.code, true, s, StepsOfBlock(x)(s)).Running?
    ensures 0 <= s.pc < |x.c.code| ==> x.c.code[s.pc] != OP_CALL && x.c.code[s.pc] != OP_RET
  {
    if 0 <= s.pc < |x.c.code| && (x.c.code[s.pc] == OP_CALL || x.c.code[s.pc] == OP_RET) {
      BlockSimulated(x, s);
      CallIsOneBlock(x.In(), s.pc);
      WholeAtBlock(x, s.pc);
      CallStepYields(x.c.code, s);
      OneStep(x.c.code, s);
    }
  }

  // -------------------------------------------------------------- whole runs

  ghost function ThreadClaims(x: Compiled, h: seq<nat>): (Thread, Notes) -> bool {
    (u: Thread, n: Notes) => GoodThread(x, u) && ThreadClaimed(x.c.code, h, u, n)
  }

  /** In a certified chunk nothing ever uses a value that an increment left, in any run. */
  lemma CertifiedIsLive(x: Compiled, sizes: seq<nat>, h: seq<nat>, u: Thread, n: Notes, b: nat)
    requires x.Sound() && CallsAreSound(x) && Certified(x, h) && GoodThread(x, u) && ThreadClaimed(x.c.code, h, u, n)
    ensures LiveThrough(BlockMachine(x, sizes), Noting(x, sizes), Living(x), u, n, b)
  {
    var block, inv := BlockMachine(x, sizes), ThreadClaims(x, h);
    forall v: Thread, k: Notes {:trigger inv(v, k)} | inv(v, k)
      ensures Living(x)(v, k) && (block(v).Going? ==> inv(block(v).t, Noting(x, sizes)(v, k)))
    {
      ClaimedIsLive(x, h, v, k);
      if BlockRun(x, sizes, v).Going? {
        BlockKeepsClaims(x, sizes, h, v, k);
      }
    }
    LiveAlways(block, Noting(x, sizes), Living(x), inv, u, n, b);
  }

  lemma StartIsClaimed(x: Compiled, h: seq<nat>, t: Thread)
    requires x.Sound() && Certified(x, h) && GoodThread(x, t)
    ensures ThreadClaimed(x.c.code, h, t, Unmarked(t))
  {
    GoodIsInstruction(x, t);
  }

  /** For every chunk with such heights, every run of what the optimizer returns is, through all
      calls and returns, the mapped canonical run without exactly the values that its increments left;
      or it has parted from it at a range loop with step zero, at a return without a value or at an open end. */
  lemma CertifiedFusion(w: Finished, h: seq<nat>, t: Thread, b: nat)
    requires w.Ready() && Certified(w.x, h) && GoodThread(w.x, t)
    ensures exists r: Result ::
      && w.Optimized().Run(MapThread(w.x.Map(), t), b) == MapResult(w.x.Map(), r)
      && (CanonicalUpToDead(w, t, r, b) || PartedUpToDead(w, t, r, b))
  {
    StartIsClaimed(w.x, h, t);
    CertifiedIsLive(w.x, w.frames, h, t, Unmarked(t), b);
    FusionUpToDeadValues(w, t, b);
  }
}
