/** Whole runs of the optimized chunk across calls and returns, against whole runs of the canonical chunk. */
module CallRuns {
  import opened Bytes
  import opened Vm
  import opened Optimizer
  import opened Passes
  import opened Relocation
  import opened BlockSemantics
  import opened CanonicalRuns
  import opened Simulation
  import opened Fusion
  import opened FastCalls
  import opened Calls

  // ---------------------------------------------------------- mapped threads

  /** Return addresses go through the position map, as program counters do. */
  function MapFrames(p: Place, fs: seq<Frame>): (r: seq<Frame>)
    ensures |r| == |fs|
  {
    seq(|fs|, i requires 0 <= i < |fs| => fs[i].(back := p.Pc(fs[i].back)))
  }

  function MapRest(p: Place, r: Rest): Rest {
    r.(frames := MapFrames(p, r.frames))
  }

  function MapThread(p: Place, t: Thread): Thread {
    Thread(p.State(t.s), MapRest(p, t.rest))
  }

  function MapResult(p: Place, r: Result): Result {
    match r
    case Going(t) => Going(MapThread(p, t))
    case Ended(Stops(o, rest)) => Ended(Stops(p.Outcome(o), MapRest(p, rest)))
    case Ended(_) => r
  }

  function MapCall(p: Place, call: Call): Call {
    match call
    case Call(entry, argc, frame, back) => Call(p.Pc(entry), argc, frame, p.Pc(back))
    case _ => call
  }

  lemma BaseMapped(p: Place, fs: seq<Frame>)
    ensures Base(MapFrames(p, fs)) == Base(fs)
  {
  }

  lemma EnterMapped(p: Place, s: State, rest: Rest, call: Call)
    ensures Enter(p.State(s), MapRest(p, rest), MapCall(p, call)) == MapResult(p, Enter(s, rest, call))
  {
    match call
    case NoCall =>
    case BadIndex =>
    case Call(_, argc, _, _) =>
      if Depth(s.stack) >= argc && |rest.frames| < MAX_CALL_DEPTH {
        EnteredMapped(p, s, rest, call);
        GoingMapped(p, s, rest, call, Entered(s, rest, call), Entered(p.State(s), MapRest(p, rest), MapCall(p, call)));
      }
  }

  lemma GoingMapped(p: Place, s: State, rest: Rest, call: Call, u: Thread, v: Thread)
    requires call.Call? && Depth(s.stack) >= call.argc && |rest.frames| < MAX_CALL_DEPTH
    requires u == Entered(s, rest, call) && v == Entered(p.State(s), MapRest(p, rest), MapCall(p, call))
    requires v == MapThread(p, u)
    ensures Enter(p.State(s), MapRest(p, rest), MapCall(p, call)) == MapResult(p, Enter(s, rest, call))
  {
    assert Enter(s, rest, call) == Going(u);
    assert Enter(p.State(s), MapRest(p, rest), MapCall(p, call)) == Going(v);
  }

  lemma EnteredMapped(p: Place, s: State, rest: Rest, call: Call)
    requires call.Call?
    ensures Entered(p.State(s), MapRest(p, rest), MapCall(p, call)) == MapThread(p, Entered(s, rest, call))
  {
    BaseMapped(p, rest.frames);
    FramesMapped(p, rest.frames, Frame(call.back, rest.top, call.frame, Dropped(s.stack, call.argc)));
  }

  lemma FramesMapped(p: Place, fs: seq<Frame>, f: Frame)
    ensures MapFrames(p, fs + [f]) == MapFrames(p, fs) + [f.(back := p.Pc(f.back))]
  {
  }

  lemma LeaveMapped(p: Place, s: State, rest: Rest, looks: bool)
    ensures Leave(p.State(s), MapRest(p, rest), looks) == MapResult(p, Leave(s, rest, looks))
  {
    if rest.frames != [] {
      var callers := rest.frames[..|rest.frames| - 1];
      assert MapFrames(p, rest.frames)[..|rest.frames| - 1] == MapFrames(p, callers);
      BaseMapped(p, callers);
    }
  }

  // ----------------------------------------------------------- sound entries

  /** Control may be here between blocks. */
  ghost predicate GoodPlace(x: Compiled, pc: int) {
    x.AtBlock(pc) || (pc == |x.c.code| && x.Sealing())
  }

  /** An entry point is an instruction start, not inside a loop header or an increment. */
  ghost predicate EntrySound(x: Compiled, e: nat) {
    && e <= |x.c.code| && Steps(x.c.code, 0, e) && !InsideUnguarded(x.In(), x.lay, e)
    && (e == |x.c.code| ==> x.Sealing())
  }

  /** The entry of a function, or of a method, is sent to the mapped position, and execution can
      start there, between blocks, if and only if it is not inside a loop header or an increment. */
  lemma EntryIsGoodIff(x: Compiled, entries: seq<nat>, f: nat)
    requires x.Sound() && (entries == x.c.functionTable || entries == x.c.methodEntries) && f < |entries|
    requires entries[f] < |x.c.code| && Steps(x.c.code, 0, entries[f])
    ensures Relocated(entries, x.pcs)[f] == x.Map().Pc(entries[f])
    ensures GoodPlace(x, entries[f]) <==> !InsideUnguarded(x.In(), x.lay, entries[f])
  {
    var e := entries[f];
    assert e in EntryPoints(x.c);
    TargetIsBoundary(x.In(), x.lay, e);
    if Boundary(x.lay, e) {
      var m: nat :| m < |x.lay.starts| && x.lay.starts[m] == e;
      assert Adjacent(x.In(), x.lay, m);
    }
  }

  /** Fast forms are the optimizer's own; functions start at sound entries. A chunk without a
      function table calls code positions directly, and the optimizer does not relocate those. */
  ghost predicate CallsAreSound(x: Compiled) {
    && (forall ip: nat :: Steps(x.c.code, 0, ip) && ip < |x.c.code| ==> !FastForm(x.c.code[ip]))
    && (forall f :: 0 <= f < |x.c.functionTable| ==> EntrySound(x, x.c.functionTable[f]))
    && (x.c.functionTable == [] ==>
          forall ip: nat :: Steps(x.c.code, 0, ip) && ip + 4 <= |x.c.code| && x.c.code[ip] == OP_CALL ==>
            GoodPlace(x, Slot(x.c.code, ip + 1)) && x.Map().Pc(Slot(x.c.code, ip + 1)) == Slot(x.c.code, ip + 1))
  }

  predicate FastForm(op: int) {
    op == OP_CALL_FAST_0 || op == OP_CALL_FAST_1 || op == OP_RET_FAST
  }

  /** The canonical chunk as a program, and the optimized one before its calls are lowered. */
  function Source(x: Compiled, sizes: seq<nat>): Program {
    Program(x.c.code, true, x.c.functionTable, sizes)
  }

  function Target(x: Compiled, sizes: seq<nat>): Program {
    Program(Sealed(x.body), false, Relocated(x.c.functionTable, x.pcs), sizes)
  }

  lemma TableEntry(x: Compiled, f: nat)
    requires x.Sound() && CallsAreSound(x) && f < |x.c.functionTable|
    ensures GoodPlace(x, x.c.functionTable[f])
    ensures Relocated(x.c.functionTable, x.pcs)[f] == x.Map().Pc(x.c.functionTable[f])
  {
    if x.c.functionTable[f] < |x.c.code| {
      EntryIsGoodIff(x, x.c.functionTable, f);
    }
  }

  // ------------------------------------------------------------- one block

  /** One step of the reference: the block, then the call or the return that it hands over to. */
  ghost function RefNext(x: Compiled, sizes: seq<nat>, t: Thread): Result {
    Source(x, sizes).Resume(x.RefBlock(t.s), t.rest)
  }

  ghost predicate GoodThread(x: Compiled, t: Thread) {
    x.Good(t.s) && forall i :: 0 <= i < |t.rest.frames| ==> GoodPlace(x, t.rest.frames[i].back)
  }

  /** Blocks of several instructions contain no call and no return. */
  lemma FusedBlockYieldsNot(x: Compiled, s: State)
    requires x.Sound() && x.AtBlock(s.pc) && s.pc >= 0 && x.In().BlockAt(s.pc)
    requires Work(x.In().KindAt(s.pc)) > 1
    ensures !x.RefBlock(s).Yield?
  {
    ReferenceBlockIff(x, s);
    match x.In().KindAt(s.pc)
    case LoopHeader => RunHeader(x.c.code, s);
    case MulAddA => RunMulAddA(x.c.code, s);
    case MulAddB => RunMulAddB(x.c.code, s);
    case AddStore => RunAddStore(x.c.code, s);
    case Increment => RunIncrement(x.c.code, s);
    case StorePop =>
      if s.stack.Push? {
        RunStorePop(x.c.code, s);
      } else {
        StoreUnderflows(x.c.code, s, 2);
      }
    case LoadLoad => RunLoadLoad(x.c.code, s);
    case _ =>
  }

  lemma StepYields(c: seq<Byte>, s: State)
    requires Step(c, true, s).Yield?
    ensures 0 <= s.pc < |c| && c[s.pc] != OP_LOAD_LOCAL && c[s.pc] != OP_STORE_LOCAL
    ensures Step(c, true, s).s == s && Step(c, true, s).op == c[s.pc]
  {
  }

  lemma SmallKinds(a: Input, ip: nat)
    requires a.BlockAt(ip) && Work(a.KindAt(ip)) == 1
    ensures a.KindAt(ip) == Copy || a.c[ip] == OP_LOAD_LOCAL || a.c[ip] == OP_STORE_LOCAL
  {
  }

  lemma SingleBlock(x: Compiled, s: State)
    requires x.Sound() && x.AtBlock(s.pc) && 0 <= s.pc && x.In().BlockAt(s.pc) && Work(x.In().KindAt(s.pc)) == 1
    ensures x.RefBlock(s) == Step(x.c.code, true, s)
  {
    ReferenceBlockIff(x, s);
    OneStep(x.c.code, s);
  }

  lemma CallIsOneBlock(a: Input, ip: nat)
    requires a.BlockAt(ip) && (a.c[ip] == OP_CALL || a.c[ip] == OP_RET)
    ensures Work(a.KindAt(ip)) == 1
  {
  }

  lemma CallStepYields(c: seq<Byte>, s: State)
    requires 0 <= s.pc < |c| && (c[s.pc] == OP_CALL || c[s.pc] == OP_RET) && s.pc + CanonLen(c[s.pc]) <= |c|
    ensures Step(c, true, s).Yield?
  {
  }

  lemma WholeAtBlock(x: Compiled, ip: nat)
    requires x.Sound() && x.AtBlock(ip) && ip < |x.c.code|
    ensures ip + CanonLen(x.c.code[ip]) <= |x.c.code| && Steps(x.c.code, 0, ip)
  {
    var i: nat :| i < Blocks(x.lay) && Adjacent(x.In(), x.lay, i) && x.lay.starts[i] == ip;
    StartsReached(x.In(), x.lay, i);
    WholeAt(x.c.code, 0, ip);
  }

  /** Where a block hands over, it is one copied instruction. */
  lemma YieldingBlock(x: Compiled, s: State)
    requires x.Sound() && x.AtBlock(s.pc) && x.RefBlock(s).Yield?
    ensures 0 <= s.pc && x.In().BlockAt(s.pc) && x.In().KindAt(s.pc) == Copy
    ensures x.RefBlock(s).s == s && x.RefBlock(s).op == x.c.code[s.pc]
  {
    BlockSimulated(x, s);
    if Work(x.In().KindAt(s.pc)) > 1 {
      FusedBlockYieldsNot(x, s);
    } else {
      SingleBlock(x, s);
      StepYields(x.c.code, s);
      SmallKinds(x.In(), s.pc);
    }
  }

  /** The bytes of a call are copied. */
  lemma CallCopied(x: Compiled, i: nat)
    requires x.Sound() && i < Blocks(x.lay) && Adjacent(x.In(), x.lay, i)
    requires var ip := x.lay.starts[i]; x.c.code[ip] == OP_CALL && x.In().KindAt(ip) == Copy
    ensures var ip, out := x.lay.starts[i], x.lay.outs[i];
      && ip + 4 == x.lay.starts[i + 1] <= |x.c.code| && out + 4 == x.lay.outs[i + 1] <= |x.body|
      && HasBytes(x.body, out, x.c.code[ip..ip + 4])
  {
    var ip, out := x.lay.starts[i], x.lay.outs[i];
    assert x.In().ArmsAt(ip) == [];
    assert RelOf(x.In().ArmsAt(ip), out, x.pcs, |x.body|) == [];
    assert BlockDone(x.In(), x.lay, x.body, x.pcs, i);
    assert x.In().Block(ip, []) == x.c.code[ip..ip + 4];
  }

  lemma FourBytes(code: seq<Byte>, out: nat, c: seq<Byte>, ip: nat)
    requires ip + 4 <= |c| && HasBytes(code, out, c[ip..ip + 4])
    ensures code[out] == c[ip] && Slot(code, out + 1) == Slot(c, ip + 1) && code[out + 3] == c[ip + 3]
  {
    var e := c[ip..ip + 4];
    assert code[out + 0] == e[0] && code[out + 1] == e[1] && code[out + 2] == e[2] && code[out + 3] == e[3];
  }

  /** Two calls with the same operands and tables that are mapped to each other. */
  lemma SameCall(p: Place, code: seq<Byte>, table: seq<nat>, c: seq<Byte>, canonical: seq<nat>, sizes: seq<nat>, out: nat, ip: nat)
    requires ip + 4 <= |c| && c[ip] == OP_CALL && HasBytes(code, out, c[ip..ip + 4])
    requires |table| == |canonical| && p.Pc(ip + 4) == out + 4
    requires var fn := Slot(c, ip + 1); if fn < |table| then table[fn] == p.Pc(canonical[fn]) else table != [] || p.Pc(fn) == fn
    ensures Called(code, table, sizes, out) == MapCall(p, Called(c, canonical, sizes, ip))
  {
    FourBytes(code, out, c, ip);
  }

  lemma SealedHas(x: Compiled, out: nat, e: seq<Byte>)
    requires HasBytes(x.body, out, e)
    ensures HasBytes(Sealed(x.body), out, e)
  {
  }

  /** The optimized call goes to the mapped entry and returns to the mapped place. */
  lemma CallMapped(x: Compiled, sizes: seq<nat>, i: nat)
    requires x.Sound() && CallsAreSound(x) && i < Blocks(x.lay) && Adjacent(x.In(), x.lay, i)
    requires var ip := x.lay.starts[i]; x.c.code[ip] == OP_CALL && x.In().KindAt(ip) == Copy
    ensures var ip, out := x.lay.starts[i], x.lay.outs[i];
      && out + 4 <= |Sealed(x.body)| && x.Map().Pc(ip) == out
      && Called(Sealed(x.body), Target(x, sizes).table, sizes, out)
           == MapCall(x.Map(), Called(x.c.code, x.c.functionTable, sizes, ip))
  {
    var ip, out := x.lay.starts[i], x.lay.outs[i];
    CallCopied(x, i);
    StartsReached(x.In(), x.lay, i);
    BoundaryMapped(x.In(), x.lay, x.pcs, x.body, i);
    BoundaryMapped(x.In(), x.lay, x.pcs, x.body, i + 1);
    SealedHas(x, out, x.c.code[ip..ip + 4]);
    var fn := Slot(x.c.code, ip + 1);
    if fn < |x.c.functionTable| {
      TableEntry(x, fn);
    }
    SameCall(x.Map(), Sealed(x.body), Target(x, sizes).table, x.c.code, x.c.functionTable, sizes, out, ip);
  }

  /** A chunk without a function table calls a code position, and the optimizer leaves the number as
      it is: the optimized call goes to the mapped entry if and only if nothing before it has moved. */
  lemma DirectCallLandsIff(x: Compiled, sizes: seq<nat>, i: nat)
    requires x.Sound() && x.c.functionTable == [] && i < Blocks(x.lay) && Adjacent(x.In(), x.lay, i)
    requires var ip := x.lay.starts[i]; x.c.code[ip] == OP_CALL && x.In().KindAt(ip) == Copy
    ensures var ip, out := x.lay.starts[i], x.lay.outs[i];
      && out + 4 <= |Sealed(x.body)| && ip + 4 <= |x.c.code|
      && var entry := Slot(x.c.code, ip + 1);
         (Called(Sealed(x.body), [], sizes, out) == MapCall(x.Map(), Called(x.c.code, [], sizes, ip)) <==> x.Map().Pc(entry) == entry)
  {
    var ip, out := x.lay.starts[i], x.lay.outs[i];
    CallCopied(x, i);
    BoundaryMapped(x.In(), x.lay, x.pcs, x.body, i + 1);
    SealedHas(x, out, x.c.code[ip..ip + 4]);
    FourBytes(Sealed(x.body), out, x.c.code, ip);
  }

  /** A call goes to a place between blocks, and so does the return from it. */
  lemma CallStaysGood(x: Compiled, sizes: seq<nat>, i: nat)
    requires x.Sound() && CallsAreSound(x) && i < Blocks(x.lay) && Adjacent(x.In(), x.lay, i)
    requires var ip := x.lay.starts[i]; x.c.code[ip] == OP_CALL && x.In().KindAt(ip) == Copy
    ensures var call := Called(x.c.code, x.c.functionTable, sizes, x.lay.starts[i]);
      call.Call? ==> GoodPlace(x, call.entry) && GoodPlace(x, call.back)
  {
    var ip := x.lay.starts[i];
    CallCopied(x, i);
    StartsReached(x.In(), x.lay, i);
    CallReturnsBetweenBlocks(x, i);
    var fn := Slot(x.c.code, ip + 1);
    if fn < |x.c.functionTable| {
      TableEntry(x, fn);
    }
  }

  /** A call is never the last instruction unless a HALT was appended. */
  lemma CallReturnsBetweenBlocks(x: Compiled, i: nat)
    requires x.Sound() && i < Blocks(x.lay) && Adjacent(x.In(), x.lay, i) && x.c.code[x.lay.starts[i]] != OP_HALT
    ensures GoodPlace(x, x.lay.starts[i + 1])
  {
    if i + 1 < Blocks(x.lay) {
      assert Adjacent(x.In(), x.lay, i + 1);
    }
  }

  // ---------------------------------------------------- one step of a thread

  lemma EnteredIsGood(x: Compiled, s: State, rest: Rest, call: Call)
    requires GoodThread(x, Thread(s, rest)) && call.Call? && GoodPlace(x, call.entry) && GoodPlace(x, call.back)
    ensures GoodThread(x, Entered(s, rest, call))
  {
  }

  lemma ReturnedIsGood(x: Compiled, s: State, rest: Rest, v: Value)
    requires GoodThread(x, Thread(s, rest)) && rest.frames != []
    ensures GoodThread(x, Returned(s, rest, v))
  {
  }

  lemma ReturnHandedOver(x: Compiled, sizes: seq<nat>, t: Thread)
    requires x.Sound() && GoodThread(x, t) && x.RefBlock(t.s).Yield? && x.RefBlock(t.s).s == t.s
    requires x.RefBlock(t.s).op == OP_RET
    ensures Target(x, sizes).Resume(x.Map().Outcome(x.RefBlock(t.s)), MapRest(x.Map(), t.rest))
         == MapResult(x.Map(), RefNext(x, sizes, t))
    ensures RefNext(x, sizes, t).Going? ==> GoodThread(x, RefNext(x, sizes, t).t)
  {
    LeaveMapped(x.Map(), t.s, t.rest, true);
    if t.rest.frames != [] {
      ReturnedIsGood(x, t.s, t.rest, if t.s.stack.Push? then t.s.stack.top else Nil);
    }
  }

  lemma ResumeCall(p: Program, s: State, operands: seq<Byte>, rest: Rest)
    requires 0 <= s.pc < |p.code|
    ensures p.Resume(Yield(s, OP_CALL, operands), rest) == Enter(s, rest, Called(p.code, p.table, p.sizes, s.pc))
  {
  }

  lemma EnterStaysGood(x: Compiled, s: State, rest: Rest, call: Call)
    requires GoodThread(x, Thread(s, rest)) && (call.Call? ==> GoodPlace(x, call.entry) && GoodPlace(x, call.back))
    ensures Enter(s, rest, call).Going? ==> GoodThread(x, Enter(s, rest, call).t)
  {
    EnterIs(s, rest, call);
    if Enter(s, rest, call).Going? {
      EnteredIsGood(x, s, rest, call);
    }
  }

  lemma CallHandedOver(x: Compiled, sizes: seq<nat>, t: Thread, i: nat, operands: seq<Byte>)
    requires x.Sound() && CallsAreSound(x) && GoodThread(x, t) && x.RefBlock(t.s) == Yield(t.s, OP_CALL, operands)
    requires i < Blocks(x.lay) && Adjacent(x.In(), x.lay, i) && x.lay.starts[i] == t.s.pc
    requires x.c.code[t.s.pc] == OP_CALL && x.In().KindAt(t.s.pc) == Copy
    ensures Target(x, sizes).Resume(x.Map().Outcome(x.RefBlock(t.s)), MapRest(x.Map(), t.rest))
         == MapResult(x.Map(), RefNext(x, sizes, t))
    ensures RefNext(x, sizes, t).Going? ==> GoodThread(x, RefNext(x, sizes, t).t)
  {
    var call := Called(x.c.code, x.c.functionTable, sizes, t.s.pc);
    CallMapped(x, sizes, i);
    CallStaysGood(x, sizes, i);
    ResumeCall(Source(x, sizes), t.s, operands, t.rest);
    ResumeCall(Target(x, sizes), x.Map().State(t.s), operands, MapRest(x.Map(), t.rest));
    EnterMapped(x.Map(), t.s, t.rest, call);
    EnterStaysGood(x, t.s, t.rest, call);
  }

  /** A call or a return handed over at `t`: the same happens on both sides. */
  lemma HandedOver(x: Compiled, sizes: seq<nat>, t: Thread)
    requires x.Sound() && CallsAreSound(x) && GoodThread(x, t) && x.AtBlock(t.s.pc) && x.RefBlock(t.s).Yield?
    ensures Target(x, sizes).Resume(x.Map().Outcome(x.RefBlock(t.s)), MapRest(x.Map(), t.rest))
         == MapResult(x.Map(), RefNext(x, sizes, t))
    ensures RefNext(x, sizes, t).Going? ==> GoodThread(x, RefNext(x, sizes, t).t)
  {
    YieldingBlock(x, t.s);
    var i: nat :| i < Blocks(x.lay) && Adjacent(x.In(), x.lay, i) && x.lay.starts[i] == t.s.pc;
    StartsReached(x.In(), x.lay, i);
    if x.c.code[t.s.pc] == OP_RET {
      ReturnHandedOver(x, sizes, t);
    } else if x.c.code[t.s.pc] == OP_CALL {
      CallHandedOver(x, sizes, t, i, x.RefBlock(t.s).operands);
    } else {
      assert !FastForm(x.c.code[t.s.pc]);
    }
  }

  /** One optimized step is one mapped step of the reference, calls and returns included. */
  lemma NextSimulated(x: Compiled, sizes: seq<nat>, t: Thread)
    requires x.Sound() && CallsAreSound(x) && GoodThread(x, t)
    ensures Target(x, sizes).Next(MapThread(x.Map(), t)) == MapResult(x.Map(), RefNext(x, sizes, t))
    ensures RefNext(x, sizes, t).Going? ==> GoodThread(x, RefNext(x, sizes, t).t)
  {
    NotABlock(x);
    if t.s.pc == |x.c.code| {
      EndSimulated(x, t.s);
    } else {
      BlockNextSimulated(x, sizes, t);
    }
  }

  lemma BlockNextSimulated(x: Compiled, sizes: seq<nat>, t: Thread)
    requires x.Sound() && CallsAreSound(x) && GoodThread(x, t) && x.AtBlock(t.s.pc)
    ensures Target(x, sizes).Next(MapThread(x.Map(), t)) == MapResult(x.Map(), RefNext(x, sizes, t))
    ensures RefNext(x, sizes, t).Going? ==> GoodThread(x, RefNext(x, sizes, t).t)
  {
    BlockSimulated(x, t.s);
    var o := x.RefBlock(t.s);
    match o
    case Yield(_, _, _) => HandedOver(x, sizes, t);
    case Running(_) =>
      GoodKept(x, t.s);
      PlainMapped(x, sizes, o, t.rest);
    case _ => PlainMapped(x, sizes, o, t.rest);
  }

  lemma PlainMapped(x: Compiled, sizes: seq<nat>, o: Outcome, rest: Rest)
    requires !o.Yield?
    ensures Target(x, sizes).Resume(x.Map().Outcome(o), MapRest(x.Map(), rest))
         == MapResult(x.Map(), Source(x, sizes).Resume(o, rest))
  {
  }

  ghost function GoodThreads(x: Compiled): Thread -> bool {
    (t: Thread) => GoodThread(x, t)
  }

  function Mapping(p: Place): Thread -> Thread {
    (t: Thread) => MapThread(p, t)
  }

  function ResultMapping(p: Place): Result -> Result {
    (r: Result) => MapResult(p, r)
  }

  // ----------------------------------------------- against canonical runs

  predicate HandsOver(o: Outcome) {
    o.Yield? && (Returns(o.op) || IsCall(o.op))
  }

  /** Instructions that are neither calls nor returns run in a thread as they do alone. */
  lemma {:induction false} ResumeRun(p: Program, t: Thread, n: nat)
    requires n >= 1 && (n == 1 || !HandsOver(Run(p.code, p.guarded, t.s, n)))
    ensures p.Run(t, n) == p.Resume(Run(p.code, p.guarded, t.s, n), t.rest)
    decreases n
  {
    var o := Machine(p.code, p.guarded)(t.s);
    assert p.Machine()(t) == p.Next(t);
    if n == 1 {
      RunOne(p.Machine(), t);
      assert Run(p.code, p.guarded, t.s, 1) == o;
    } else if o.Running? {
      ResumeRun(p, Thread(o.s, t.rest), n - 1);
    }
  }

  /** A return that finds no value on the operand stack. */
  predicate EmptyReturn(code: seq<Byte>, t: Thread) {
    0 <= t.s.pc < |code| && code[t.s.pc] == OP_RET && t.rest.frames != [] && t.s.stack.Empty?
  }

  /** What the end of the optimizer did: whether returns are lowered, and whether the code is
      left open at its end, without the HALT that it needs. */
  datatype Finish = Finish(fast: bool, open: bool)

  /** One step of what the optimizer returns, in terms of the canonical chunk: a lowered return
      without a value takes it from below the stack, an open end is run over. */
  ghost function FinalNext(x: Compiled, sizes: seq<nat>, f: Finish, t: Thread): Result {
    if f.open && t.s.pc == |x.c.code| then Ended(Stops(Wild, t.rest))
    else if f.fast && EmptyReturn(x.c.code, t) then Ended(BelowStack)
    else RefNext(x, sizes, t)
  }

  ghost function FinalThreads(x: Compiled, sizes: seq<nat>, f: Finish): Thread -> Result {
    (t: Thread) => FinalNext(x, sizes, f, t)
  }

  /** Where the optimized code leaves the canonical run: at a range loop with step zero, at a
      lowered return without a value, and at an open end. */
  ghost predicate Parts(x: Compiled, f: Finish, t: Thread) {
    ZeroHeader(x, t.s) || (f.fast && EmptyReturn(x.c.code, t)) || (f.open && t.s.pc == |x.c.code|)
  }

  ghost function PartingThreads(x: Compiled, f: Finish): Thread -> bool {
    (t: Thread) => Parts(x, f, t)
  }

  ghost function ThreadWork(x: Compiled): Thread -> nat {
    (t: Thread) => BlockWork(x)(t.s)
  }

  lemma BlockNeverHandsOver(x: Compiled, s: State)
    requires x.Sound() && x.Good(s) && BlockWork(x)(s) > 1
    ensures !HandsOver(Run(x.c.code, true, s, BlockWork(x)(s)))
  {
    ReferenceBlockIff(x, s);
    FusedBlockYieldsNot(x, s);
    if x.In().KindAt(s.pc) == Increment {
      RunIncrement(x.c.code, s);
    } else if ZeroHeader(x, s) {
      RunHeader(x.c.code, s);
    }
  }

  lemma RefBlockIsRun(x: Compiled, s: State)
    requires x.Sound() && NoIncrement(x) && x.Good(s) && !ZeroHeader(x, s)
    ensures BlockWork(x)(s) >= 1 && x.RefBlock(s) == Run(x.c.code, true, s, BlockWork(x)(s))
  {
    NotABlock(x);
    if s.pc == |x.c.code| {
      EndHalts(x, s);
    } else {
      ReferenceBlockIff(x, s);
    }
  }

  /** A block of the reference is its canonical instructions. */
  lemma RefNextIsCanonical(x: Compiled, sizes: seq<nat>, t: Thread, n: nat)
    requires x.Sound() && NoIncrement(x) && x.Good(t.s) && !ZeroHeader(x, t.s) && n == BlockWork(x)(t.s)
    ensures n >= 1 && RefNext(x, sizes, t) == Source(x, sizes).Run(t, n)
  {
    RefBlockIsRun(x, t.s);
    if n > 1 {
      BlockNeverHandsOver(x, t.s);
    }
    ResumeRun(Source(x, sizes), t, n);
  }

  lemma FinalRefines(x: Compiled, sizes: seq<nat>, f: Finish)
    requires x.Sound() && CallsAreSound(x) && NoIncrement(x)
    ensures RefinesThreads(FinalThreads(x, sizes, f), Source(x, sizes).Machine(), ThreadWork(x), GoodThreads(x),
                           PartingThreads(x, f))
  {
    forall t: Thread {:trigger GoodThreads(x)(t)} | GoodThreads(x)(t)
      ensures RefinesAt(FinalThreads(x, sizes, f), Source(x, sizes).Machine(), ThreadWork(x), GoodThreads(x),
                        PartingThreads(x, f), t)
    {
      FinalOne(x, sizes, f, t);
    }
  }

  lemma FinalOne(x: Compiled, sizes: seq<nat>, f: Finish, t: Thread)
    requires x.Sound() && CallsAreSound(x) && NoIncrement(x) && GoodThread(x, t)
    ensures RefinesAt(FinalThreads(x, sizes, f), Source(x, sizes).Machine(), ThreadWork(x), GoodThreads(x),
                      PartingThreads(x, f), t)
  {
    NextSimulated(x, sizes, t);
    WorkIsPositive(x, t.s);
    NotABlock(x);
    if ZeroHeader(x, t.s) {
      ZeroHeaderTraps(x, t.s);
    } else if !Parts(x, f, t) {
      RefNextIsCanonical(x, sizes, t, BlockWork(x)(t.s));
    }
  }

  lemma WorkIsPositive(x: Compiled, s: State)
    ensures BlockWork(x)(s) >= 1
  {
  }

  lemma ZeroHeaderTraps(x: Compiled, s: State)
    requires x.Sound() && ZeroHeader(x, s)
    ensures x.RefBlock(s) == ZeroStep(s)
  {
    NotABlock(x);
  }

  lemma NoThreadBetween(x: Compiled, sizes: seq<nat>)
    requires x.Sound()
    ensures NoneBetween(Source(x, sizes).Machine(), ThreadWork(x), GoodThreads(x))
  {
    var p := Source(x, sizes);
    forall t: Thread, k: nat {:trigger RunOf(p.Machine(), t, k)}
      | GoodThreads(x)(t) && 0 < k < ThreadWork(x)(t) && RunOf(p.Machine(), t, k).Going?
      ensures !GoodThreads(x)(RunOf(p.Machine(), t, k).t)
    {
      InsideBlock(x, sizes, t, k);
    }
  }

  /** Inside a block nothing is handed over, and the thread is between no blocks. */
  lemma InsideBlock(x: Compiled, sizes: seq<nat>, t: Thread, k: nat)
    requires x.Sound() && GoodThread(x, t) && 0 < k < ThreadWork(x)(t)
    ensures var r := Source(x, sizes).Run(t, k); r.Going? ==> !GoodThread(x, r.t)
  {
    var o := Run(x.c.code, true, t.s, k);
    if o.Running? {
      InsideIsNotGood(x, t.s, k);
      ResumeRun(Source(x, sizes), t, k);
    } else {
      StoppedStays(Machine(x.c.code, true), t.s, k, ThreadWork(x)(t));
      BlockNeverHandsOver(x, t.s);
      ResumeRun(Source(x, sizes), t, k);
    }
  }

  // --------------------------------------------- the canonical run never strays

  ghost predicate AtInstructions(c: seq<Byte>, t: Thread) {
    AtInstruction(c, t.s.pc) && forall i :: 0 <= i < |t.rest.frames| ==> AtInstruction(c, t.rest.frames[i].back)
  }

  ghost function ThreadsAtInstructions(c: seq<Byte>): Thread -> bool {
    (t: Thread) => AtInstructions(c, t)
  }

  lemma PlaceIsInstruction(x: Compiled, pc: int)
    requires x.Sound() && GoodPlace(x, pc)
    ensures AtInstruction(x.c.code, pc)
  {
    if x.AtBlock(pc) {
      var i: nat :| i < Blocks(x.lay) && Adjacent(x.In(), x.lay, i) && x.lay.starts[i] == pc;
      StartsReached(x.In(), x.lay, i);
    } else {
      StartsReached(x.In(), x.lay, Blocks(x.lay));
    }
  }

  lemma GoodIsAtInstructions(x: Compiled, t: Thread)
    requires x.Sound() && GoodThread(x, t)
    ensures AtInstructions(x.c.code, t)
  {
    PlaceIsInstruction(x, t.s.pc);
    forall i | 0 <= i < |t.rest.frames| ensures AtInstruction(x.c.code, t.rest.frames[i].back) {
      PlaceIsInstruction(x, t.rest.frames[i].back);
    }
  }

  lemma CallEntersInstruction(x: Compiled, sizes: seq<nat>, ip: nat)
    requires x.Sound() && CallsAreSound(x) && Steps(x.c.code, 0, ip) && ip < |x.c.code| && x.c.code[ip] == OP_CALL
    ensures var call := Called(x.c.code, x.c.functionTable, sizes, ip);
      !call.NoCall? && (call.Call? ==> AtInstruction(x.c.code, call.entry) && AtInstruction(x.c.code, call.back))
  {
    CallReturnsToInstruction(x.c.code, x.c.functionTable, sizes, ip);
    CallEntry(x, sizes, ip);
  }

  lemma CallReturnsToInstruction(c: seq<Byte>, table: seq<nat>, sizes: seq<nat>, ip: nat)
    requires Whole(c, 0) && Steps(c, 0, ip) && ip < |c| && c[ip] == OP_CALL
    ensures ip + 4 <= |c|
    ensures var call := Called(c, table, sizes, ip); !call.NoCall? && (call.Call? ==> AtInstruction(c, call.back))
  {
    WholeAt(c, 0, ip);
    StepsOne(c, ip);
    StepsTrans(c, 0, ip, ip + 4);
  }

  lemma CallEntry(x: Compiled, sizes: seq<nat>, ip: nat)
    requires x.Sound() && CallsAreSound(x) && Steps(x.c.code, 0, ip) && ip + 4 <= |x.c.code| && x.c.code[ip] == OP_CALL
    ensures var call := Called(x.c.code, x.c.functionTable, sizes, ip);
      call.Call? ==> AtInstruction(x.c.code, call.entry)
  {
    var fn := Slot(x.c.code, ip + 1);
    if x.c.functionTable == [] {
      PlaceIsInstruction(x, fn);
    } else if fn < |x.c.functionTable| {
      assert EntrySound(x, x.c.functionTable[fn]);
    }
  }

  lemma EnterStaysAtInstructions(c: seq<Byte>, s: State, rest: Rest, call: Call)
    requires AtInstructions(c, Thread(s, rest)) && !call.NoCall?
    requires call.Call? ==> AtInstruction(c, call.entry) && AtInstruction(c, call.back)
    ensures Enter(s, rest, call).Going? ==> AtInstructions(c, Enter(s, rest, call).t)
    ensures !Strays(Enter(s, rest, call))
  {
  }

  lemma LeaveStaysAtInstructions(c: seq<Byte>, s: State, rest: Rest)
    requires AtInstructions(c, Thread(s, rest))
    ensures Leave(s, rest, true).Going? ==> AtInstructions(c, Leave(s, rest, true).t)
    ensures !Strays(Leave(s, rest, true))
  {
  }

  lemma CanonicalNextStays(x: Compiled, sizes: seq<nat>, t: Thread)
    requires x.Sound() && CallsAreSound(x) && AtInstructions(x.c.code, t)
    ensures var r := Source(x, sizes).Next(t); !Strays(r) && (r.Going? ==> AtInstructions(x.c.code, r.t))
  {
    var o := Step(x.c.code, true, t.s);
    StepStays(x.c.code, t.s);
    if o.Yield? {
      StepYields(x.c.code, t.s);
      assert !FastForm(o.op);
      if o.op == OP_RET {
        LeaveStaysAtInstructions(x.c.code, t.s, t.rest);
      } else if o.op == OP_CALL {
        CallEntersInstruction(x, sizes, t.s.pc);
        EnterStaysAtInstructions(x.c.code, t.s, t.rest, Called(x.c.code, x.c.functionTable, sizes, t.s.pc));
      }
    }
  }

  lemma CanonicalNeverStrays(x: Compiled, sizes: seq<nat>, t: Thread, n: nat)
    requires x.Sound() && CallsAreSound(x) && GoodThread(x, t)
    ensures !Strays(Source(x, sizes).Run(t, n))
  {
    var inv := ThreadsAtInstructions(x.c.code);
    GoodIsAtInstructions(x, t);
    forall u: Thread {:trigger inv(u)} | inv(u)
      ensures !Strays(Source(x, sizes).Machine()(u))
      ensures Source(x, sizes).Machine()(u).Going? ==> inv(Source(x, sizes).Machine()(u).t)
    {
      CanonicalNextStays(x, sizes, u);
    }
    NeverStrays(Source(x, sizes).Machine(), inv, t, n);
  }

  // -------------------------------------------------------------- whole runs

  /** After `n` canonical steps from `t`, between blocks, the thread is `u`, where the two codes part. */
  ghost predicate MeetsParting(x: Compiled, sizes: seq<nat>, f: Finish, t: Thread, n: nat, u: Thread) {
    Source(x, sizes).Run(t, n) == Going(u) && GoodThread(x, u) && Parts(x, f, u)
  }

  ghost predicate EverParts(x: Compiled, sizes: seq<nat>, f: Finish, t: Thread) {
    exists n: nat, u: Thread :: MeetsParting(x, sizes, f, t, n, u)
  }

  /** The result `r` of `m` steps is the canonical one after `n`, at least as many if it still runs. */
  ghost predicate CanonicalAfter(x: Compiled, sizes: seq<nat>, t: Thread, r: Result, m: nat, n: nat) {
    r == Source(x, sizes).Run(t, n) && (r.Going? ==> n >= m)
  }

  ghost predicate CanonicalAt(x: Compiled, sizes: seq<nat>, t: Thread, r: Result, m: nat) {
    exists n: nat :: CanonicalAfter(x, sizes, t, r, m, n)
  }

  /** Where the canonical run parts from the optimized one, and what the optimized one does there. */
  ghost predicate PartedThere(x: Compiled, sizes: seq<nat>, f: Finish, t: Thread, r: Result) {
    exists n: nat, u: Thread :: MeetsParting(x, sizes, f, t, n, u) && r == FinalNext(x, sizes, f, u)
  }

  lemma FinalIsCanonical(x: Compiled, sizes: seq<nat>, f: Finish, t: Thread, m: nat)
    requires x.Sound() && CallsAreSound(x) && NoIncrement(x) && GoodThread(x, t)
    ensures var r := RunOf(FinalThreads(x, sizes, f), t, m);
      if Strays(r) then PartedThere(x, sizes, f, t, r) else CanonicalAt(x, sizes, t, r, m)
  {
    var ref, step, work := FinalThreads(x, sizes, f), Source(x, sizes).Machine(), ThreadWork(x);
    var r, n := RunOf(ref, t, m), StepsTaken(ref, work, t, m);
    FinalRefines(x, sizes, f);
    RefinedThreads(ref, step, work, GoodThreads(x), PartingThreads(x, f), t, m);
    if r == RunOf(step, t, n) && (r.Going? ==> n >= m) {
      CanonicalNeverStrays(x, sizes, t, n);
      assert CanonicalAfter(x, sizes, t, r, m, n);
    } else {
      var k: nat, u: Thread :|
        MeetsThread(step, GoodThreads(x), PartingThreads(x, f), t, k, u) && r == ref(u);
      assert MeetsParting(x, sizes, f, t, k, u);
      FinalOne(x, sizes, f, u);
    }
  }

  lemma PartingIsReached(x: Compiled, sizes: seq<nat>, f: Finish, t: Thread, n: nat, u: Thread)
    requires x.Sound() && CallsAreSound(x) && NoIncrement(x) && GoodThread(x, t)
    requires MeetsParting(x, sizes, f, t, n, u)
    ensures Strays(RunOf(FinalThreads(x, sizes, f), t, n + 1))
  {
    FinalRefines(x, sizes, f);
    NoThreadBetween(x, sizes);
    assert MeetsThread(Source(x, sizes).Machine(), GoodThreads(x), PartingThreads(x, f), t, n, u);
    StraysByThen(FinalThreads(x, sizes, f), Source(x, sizes).Machine(), ThreadWork(x), GoodThreads(x),
                 PartingThreads(x, f), t, n, u);
  }
}
