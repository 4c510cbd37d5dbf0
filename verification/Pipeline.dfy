/**
 The whole optimizer: both passes, the frame scan, the call lowering and the sentinel, in
 that order, and whole runs of what it returns.
 */
module Pipeline {
  import opened Bytes
  import opened Vm
  import opened Optimizer
  import opened Passes
  import opened Relocation
  import opened Simulation
  import opened Fusion
  import opened Frames
  import opened FastCalls
  import opened Calls
  import opened CallRuns

  /** A translated chunk with its relocated function table, its verified frames, and whether
      calls are lowered. */
  datatype Finished = Finished(x: Compiled, table: seq<nat>, frames: seq<nat>, fast: bool)
  {
    /** The code before the sentinel. */
    function Low(): (r: seq<Byte>)
      ensures |r| == |x.body|
    {
      if fast then Lowered(x.body, table, frames, 0) else x.body
    }

    function Code(): seq<Byte> {
      Sealed(Low())
    }

    /** What `optimize` returns, as a program. */
    function Optimized(): Program {
      Program(Code(), false, table, frames)
    }

    /** The chunk that it was given, run with the frames that the scan sized. */
    function Canonical(): Program {
      Source(x, frames)
    }

    /** The translated code needed a HALT, and got none, because the lowered code looks like it has one. */
    predicate Open() {
      x.Sealing() && Low() != [] && Low()[|Low()| - 1] == OP_HALT
    }

    function Finish(): Finish {
      CallRuns.Finish(fast, Open())
    }

    /** Sound code with sound calls, its function table sent through the position map. */
    ghost predicate Ready() {
      x.Sound() && CallsAreSound(x) && table == Relocated(x.c.functionTable, x.pcs)
    }
  }

  /** The declared frame sizes, raised to what the scan of the code finds. */
  ghost predicate FramesSized(body: seq<Byte>, table: seq<nat>, sizes: seq<nat>, toplevel: nat, frames: seq<nat>, top: nat) {
    && |frames| == |Declared(sizes, |table|)|
    && (forall g :: 0 <= g < |table| ==>
          frames[g] == Raised(Declared(sizes, |table|)[g], Needed16(MaxSlot(body, table, g, 0))))
    && top == Raised(if toplevel < 32 then 32 else toplevel, Needed(MaxSlot(body, table, -1, 0)))
  }

  /** The frame scan in one clause. */
  method SizeFrames(code: seq<Byte>, table: seq<nat>, sizes: seq<nat>, toplevel: nat)
    returns (frames: seq<nat>, top: nat)
    ensures FramesSized(code, table, sizes, toplevel, frames, top)
  {
    frames, top := VerifyFrames(code, table, sizes, toplevel);
  }

  /** `optimize`: the passes in the order of the source; the sentinel test sees the lowered code. */
  method Optimize(c: Chunk, f: Flags, fast: bool, sizes: seq<nat>, toplevel: nat)
    returns (opt: OptimizedChunk, frames: seq<nat>, top: nat, ghost w: Finished)
    requires Whole(c.code, 0)
    ensures c.code == [] ==> opt.code == [] && frames == sizes && top == toplevel
    ensures c.code != [] ==>
      && w.x.c == c && w.x.f == f && Translated(w.x.In(), w.x.lay, w.x.pcs, w.x.body)
      && w.table == opt.functionTable == Relocated(c.functionTable, w.x.pcs) && w.frames == frames && w.fast == fast
      && opt.code == w.Code()
      && FramesSized(w.x.body, w.table, sizes, toplevel, frames, top)
  {
    frames, top := sizes, toplevel;
    w := Finished(Compiled(c, f, Layout([], []), [], []), [], [], fast);
    if c.code == [] {
      opt := new OptimizedChunk(c);
      return;
    }
    ghost var lay, pcs;
    opt, lay, pcs := TranslateChunk(c, f);
    ghost var body := opt.code;
    frames, top := SizeFrames(opt.code, opt.functionTable, sizes, toplevel);
    if fast {
      LowerCalls(opt, opt.functionTable, frames);
    }
    w := Finished(Compiled(c, f, lay, pcs, body), opt.functionTable, frames, fast);
    if |opt.code| == 0 || opt.code[|opt.code| - 1] != OP_HALT {
      opt.WriteByte(OP_HALT);
    }
  }

  // ------------------------------------------------- one lowered instruction

  /** A block's instruction in both codes, whole and before the end. */
  ghost predicate Lowers(w: Finished, ip: nat) {
    && ip < |w.x.body| && ip + OptLen(w.x.body[ip]) <= |w.x.body| && Plain(w.x.body[ip])
    && SameInstruction(w.x.body, w.Low(), w.table, w.frames, ip)
    && forall q :: ip <= q < ip + OptLen(w.x.body[ip]) ==>
         w.Low()[q] == (if w.fast then LowerOne(w.x.body, w.table, w.frames, ip)[q] else w.x.body[q])
  }

  lemma BlockLowers(w: Finished, i: nat)
    requires w.x.Sound() && i < Blocks(w.x.lay)
    ensures i < |w.x.lay.outs| && Lowers(w, w.x.lay.outs[i])
    ensures i + 1 < |w.x.lay.outs| && w.x.lay.outs[i] + OptLen(w.x.body[w.x.lay.outs[i]]) == w.x.lay.outs[i + 1]
  {
    BlockPlace(w.x, i);
    ScanVisitsBlocks(w.x, i);
    var ip := w.x.lay.outs[i];
    if w.fast {
      LoweringIsExact(w.x.body, w.table, w.frames, 0, ip);
      LoweredHere(w.x.body, w.table, w.frames, 0, ip);
    }
  }

  /** The same bytes decode to the same instruction. */
  lemma SameDecode(code: seq<Byte>, r: seq<Byte>, ip: nat)
    requires |r| == |code| && ip < |code| && ip + OptLen(code[ip]) <= |code|
    requires forall q :: ip <= q < ip + OptLen(code[ip]) ==> r[q] == code[q]
    ensures Decode(r, ip) == Decode(code, ip) && OptLen(r[ip]) == OptLen(code[ip])
  {
    var len := OptLen(code[ip]);
    assert r[ip..ip + len] == code[ip..ip + len];
    assert r[ip + 1..ip + len] == code[ip + 1..ip + len];
    if code[ip] == OP_PUSH_INT {
      assert r[ip + 1..ip + 9] == code[ip + 1..ip + 9];
    }
  }

  /** A call or a return, lowered or not, hands over to the outside. */
  lemma CallsYield(code: seq<Byte>, ip: nat)
    requires ip < |code| && ip + OptLen(code[ip]) <= |code|
    requires code[ip] in {OP_CALL, OP_RET, OP_CALL_FAST_0, OP_CALL_FAST_1, OP_RET_FAST}
    ensures Decode(code, ip) == External(code[ip], code[ip + 1..ip + OptLen(code[ip])])
  {
  }

  lemma YieldsItsOpcode(code: seq<Byte>, t: State)
    requires 0 <= t.pc < |code| && t.pc + OptLen(code[t.pc]) <= |code|
    ensures var o := Exec(Decode(code, t.pc), OptLen(code[t.pc]), t); o.Yield? ==> o.op == code[t.pc] && o.s == t
  {
  }

  lemma LoweredOpcode(w: Finished, ip: nat)
    requires Lowers(w, ip) && (w.x.body[ip] == OP_CALL || w.x.body[ip] == OP_RET)
    ensures w.Low()[ip] in {OP_CALL, OP_RET, OP_CALL_FAST_0, OP_CALL_FAST_1, OP_RET_FAST}
    ensures OptLen(w.Low()[ip]) == OptLen(w.x.body[ip])
  {
  }

  // ------------------------------------------------------------- the sentinel

  /** The last instruction is a call that is lowered, with a frame of 255 slots. */
  predicate LastCallIsFull(w: Finished, ip: nat) {
    && w.fast && ip + 4 == |w.x.body| && Lowerable(w.x.body, w.table, w.frames, ip)
    && FrameSize(w.frames, Slot(w.x.body, ip + 1), w.x.body[ip + 3]) == 0xFF
  }

  lemma LastByte(w: Finished, ip: nat)
    requires Lowers(w, ip) && ip + OptLen(w.x.body[ip]) == |w.x.body|
    ensures w.Open() <==> w.x.Sealing() && LastCallIsFull(w, ip)
  {
    var n := |w.x.body|;
    assert w.Low()[n - 1] == if w.fast then LowerOne(w.x.body, w.table, w.frames, ip)[n - 1] else w.x.body[n - 1];
    if w.fast && !Lowerable(w.x.body, w.table, w.frames, ip) && w.x.body[ip] == OP_RET {
      assert n - 1 == ip;
    }
  }

  /** Lowering the calls before the last byte is looked at loses the sentinel exactly when the
      code ends in a lowered call whose frame has 255 slots. */
  lemma SentinelLostIff(w: Finished)
    requires w.x.Sound()
    ensures w.Open() <==> w.x.Sealing() && Blocks(w.x.lay) > 0 && LastCallIsFull(w, w.x.lay.outs[Blocks(w.x.lay) - 1])
  {
    var n := Blocks(w.x.lay);
    LayoutOrder(w.x.In(), w.x.lay, 0, n);
    if n > 0 {
      BlockLowers(w, n - 1);
      LastByte(w, w.x.lay.outs[n - 1]);
    }
  }

  // -------------------------------------------------------------- whole runs

  lemma LowKept(w: Finished, ip: nat)
    requires Lowers(w, ip)
    ensures OptLen(w.Low()[ip]) == OptLen(w.x.body[ip])
  {
    if w.x.body[ip] == OP_CALL || w.x.body[ip] == OP_RET {
      LoweredOpcode(w, ip);
    } else {
      SameDecode(w.x.body, w.Low(), ip);
    }
  }

  lemma BlockStep(body: seq<Byte>, t: State)
    requires 0 <= t.pc < |body| && t.pc + OptLen(body[t.pc]) <= |body|
    ensures Step(Sealed(body), false, t) == Exec(Decode(body, t.pc), OptLen(body[t.pc]), t)
  {
    SealedDecodes(body, t.pc);
  }

  lemma SealedCall(code: seq<Byte>, table: seq<nat>, sizes: seq<nat>, ip: nat)
    requires ip + 4 <= |code|
    ensures Called(Sealed(code), table, sizes, ip) == Called(code, table, sizes, ip)
  {
  }

  /** A thread in the optimized code where nothing is handed over goes on alike. */
  lemma GoesOnAlike(w: Finished, o: Outcome, r: Outcome, rest: Rest)
    requires r == o && !HandsOver(o)
    ensures w.Optimized().Resume(r, rest) == Target(w.x, w.frames).Resume(o, rest)
  {
  }

  /** The lowered return: it looks for a value exactly when it was not lowered. */
  lemma ReturnLowered(w: Finished, t: State)
    requires 0 <= t.pc && Lowers(w, t.pc) && w.x.body[t.pc] == OP_RET
    ensures var r := Exec(Decode(w.Low(), t.pc), OptLen(w.Low()[t.pc]), t);
      r.Yield? && r.s == t && r.op == (if w.fast then OP_RET_FAST else OP_RET)
  {
    LoweredOpcode(w, t.pc);
    CallsYield(w.Low(), t.pc);
  }

  /** The lowered call enters what the call enters. */
  lemma CallLowered(w: Finished, t: State)
    requires 0 <= t.pc && Lowers(w, t.pc) && w.x.body[t.pc] == OP_CALL
    ensures var r := Exec(Decode(w.Low(), t.pc), OptLen(w.Low()[t.pc]), t);
      r.Yield? && r.s == t && IsCall(r.op)
    ensures t.pc < |Sealed(w.x.body)| && t.pc < |w.Code()|
    ensures Called(w.Code(), w.table, w.frames, t.pc) == Called(Sealed(w.x.body), w.table, w.frames, t.pc)
  {
    LoweredOpcode(w, t.pc);
    CallsYield(w.Low(), t.pc);
    SealedCall(w.Low(), w.table, w.frames, t.pc);
    SealedCall(w.x.body, w.table, w.frames, t.pc);
  }

  /** One step of a thread from a block, in both codes. */
  lemma BlockLowered(w: Finished, t: Thread)
    requires 0 <= t.s.pc && Lowers(w, t.s.pc) && !FastForm(w.x.body[t.s.pc]) && w.table == Target(w.x, w.frames).table
    ensures w.Optimized().Next(t)
         == if w.fast && EmptyReturn(w.x.body, t) then Ended(BelowStack) else Target(w.x, w.frames).Next(t)
  {
    var o := Exec(Decode(w.x.body, t.s.pc), OptLen(w.x.body[t.s.pc]), t.s);
    var r := Exec(Decode(w.Low(), t.s.pc), OptLen(w.Low()[t.s.pc]), t.s);
    BlockStep(w.x.body, t.s);
    LowKept(w, t.s.pc);
    BlockStep(w.Low(), t.s);
    YieldsItsOpcode(w.x.body, t.s);
    if w.x.body[t.s.pc] == OP_RET {
      CallsYield(w.x.body, t.s.pc);
      ReturnLowered(w, t.s);
    } else if w.x.body[t.s.pc] == OP_CALL {
      CallsYield(w.x.body, t.s.pc);
      CallLowered(w, t.s);
    } else {
      SameDecode(w.x.body, w.Low(), t.s.pc);
      GoesOnAlike(w, o, r, t.rest);
    }
  }

  /** A block begins with a return if and only if its translation does, and never with a fast form. */
  lemma ReturnsStay(x: Compiled, i: nat)
    requires x.Sound() && CallsAreSound(x) && i < Blocks(x.lay) && Adjacent(x.In(), x.lay, i)
    ensures x.lay.outs[i] < |x.body| && !FastForm(x.body[x.lay.outs[i]])
    ensures x.body[x.lay.outs[i]] == OP_RET <==> x.c.code[x.lay.starts[i]] == OP_RET
  {
    var a, ip, out := x.In(), x.lay.starts[i], x.lay.outs[i];
    StartsReached(a, x.lay, i);
    BlockPlace(x, i);
    var rel := BlockFacts(x, i);
    var e := a.Block(ip, rel);
    assert BlockDone(a, x.lay, x.body, x.pcs, i);
    assert x.body[out + 0] == e[0];
    EmittedOpcode(a, ip, rel);
  }

  lemma EmittedOpcode(a: Input, ip: nat, rel: seq<int>)
    requires a.BlockAt(ip) && !FastForm(a.c[ip]) && |rel| == |a.ArmsAt(ip)|
    ensures |a.Block(ip, rel)| > 0 && !FastForm(a.Block(ip, rel)[0])
    ensures a.Block(ip, rel)[0] == OP_RET <==> a.c[ip] == OP_RET
  {
  }

  /** Past the last block the machine halts, or reads outside the code when it was left open. */
  lemma EndOfCode(w: Finished, t: State)
    requires w.x.Sound() && w.x.Sealing() && t.pc == |w.x.body|
    ensures Step(w.Code(), false, t) == if w.Open() then Wild else Halted(t)
  {
    LayoutOrder(w.x.In(), w.x.lay, 0, Blocks(w.x.lay));
  }

  /** Where the lowered code does something else: at a return without a value, and at an open end. */
  predicate LoweredParts(w: Finished, u: Thread) {
    (w.fast && EmptyReturn(w.x.body, u)) || (w.Open() && u.s.pc == |w.x.body|)
  }

  /** What it does there. */
  function PartingEnd(w: Finished, u: Thread): Result {
    Ended(if w.Open() && u.s.pc == |w.x.body| then Stops(Wild, u.rest) else BelowStack)
  }

  lemma BlockNextLowered(w: Finished, t: Thread, i: nat)
    requires w.Ready() && i < Blocks(w.x.lay) && Adjacent(w.x.In(), w.x.lay, i) && w.x.lay.starts[i] == t.s.pc
    ensures var u := MapThread(w.x.Map(), t);
      && (LoweredParts(w, u) <==> w.fast && EmptyReturn(w.x.c.code, t)) && u.s.pc < |w.x.body|
      && w.Optimized().Next(u) == if LoweredParts(w, u) then PartingEnd(w, u) else Target(w.x, w.frames).Next(u)
  {
    BoundaryMapped(w.x.In(), w.x.lay, w.x.pcs, w.x.body, i);
    BlockLowers(w, i);
    ReturnsStay(w.x, i);
    BlockLowered(w, MapThread(w.x.Map(), t));
  }

  /** One step of a thread: the lowering changes it exactly there. */
  lemma LoweredNext(w: Finished, t: Thread)
    requires w.Ready() && GoodThread(w.x, t)
    ensures var u := MapThread(w.x.Map(), t);
      && (LoweredParts(w, u) <==> (w.fast && EmptyReturn(w.x.c.code, t)) || (w.Open() && t.s.pc == |w.x.c.code|))
      && (t.s.pc == |w.x.c.code| <==> u.s.pc == |w.x.body|)
      && w.Optimized().Next(u) == if LoweredParts(w, u) then PartingEnd(w, u) else Target(w.x, w.frames).Next(u)
  {
    NotABlock(w.x);
    if w.x.AtBlock(t.s.pc) {
      var i: nat :| i < Blocks(w.x.lay) && Adjacent(w.x.In(), w.x.lay, i) && w.x.lay.starts[i] == t.s.pc;
      BlockNextLowered(w, t, i);
    } else {
      BoundaryMapped(w.x.In(), w.x.lay, w.x.pcs, w.x.body, Blocks(w.x.lay));
      EndSimulated(w.x, t.s);
      EndOfCode(w, w.x.Map().State(t.s));
    }
  }

  // --------------------------------------- whole runs, across calls and returns

  /** Threads of the optimized code that stand between blocks. */
  ghost function MappedThreads(x: Compiled): Thread -> bool {
    (u: Thread) => exists t: Thread :: GoodThread(x, t) && u == MapThread(x.Map(), t)
  }

  ghost function LoweredPartings(w: Finished): Thread -> bool {
    (u: Thread) => LoweredParts(w, u)
  }

  lemma LoweredNextMapped(w: Finished, u: Thread, t: Thread)
    requires w.Ready() && GoodThread(w.x, t) && u == MapThread(w.x.Map(), t)
    ensures w.Optimized().Next(u) == Target(w.x, w.frames).Next(u) <==> !LoweredPartings(w)(u)
    ensures var r := Target(w.x, w.frames).Next(u); r.Going? ==> MappedThreads(w.x)(r.t)
  {
    LoweredNext(w, t);
    NextSimulated(w.x, w.frames, t);
    if t.s.pc == |w.x.c.code| {
      EndSimulated(w.x, t.s);
    } else if EmptyReturn(w.x.c.code, t) {
      ReturnIsCopied(w.x, t.s);
    }
  }

  lemma ReturnIsCopied(x: Compiled, s: State)
    requires x.Sound() && x.Good(s) && 0 <= s.pc < |x.c.code| && x.c.code[s.pc] == OP_RET
    ensures x.RefBlock(s) == Yield(s, OP_RET, [])
  {
    BlockSimulated(x, s);
    CallIsOneBlock(x.In(), s.pc);
    SingleBlock(x, s);
    WholeAtBlock(x, s.pc);
    ReturnStepYields(x.c.code, s);
  }

  lemma ReturnStepYields(c: seq<Byte>, s: State)
    requires 0 <= s.pc < |c| && c[s.pc] == OP_RET
    ensures Step(c, true, s) == Yield(s, OP_RET, [])
  {
    CallsYield(c, s.pc);
  }

  ghost predicate LoweredSame(w: Finished, u: Thread, m: nat) {
    w.Optimized().Run(u, m) == Target(w.x, w.frames).Run(u, m)
  }

  /** After `n` steps from `u` the code before the lowering is at such a place. */
  ghost predicate ReachesParting(w: Finished, u: Thread, n: nat) {
    var r := Target(w.x, w.frames).Run(u, n);
    r.Going? && LoweredParts(w, r.t)
  }

  lemma LoweredDiffer(w: Finished)
    requires w.Ready()
    ensures forall v: Thread {:trigger MappedThreads(w.x)(v)} :: MappedThreads(w.x)(v) ==>
      && (w.Optimized().Machine()(v) == Target(w.x, w.frames).Machine()(v) <==> !LoweredPartings(w)(v))
      && (Target(w.x, w.frames).Machine()(v).Going? ==> MappedThreads(w.x)(Target(w.x, w.frames).Machine()(v).t))
  {
    forall v: Thread {:trigger MappedThreads(w.x)(v)} | MappedThreads(w.x)(v)
      ensures w.Optimized().Machine()(v) == Target(w.x, w.frames).Machine()(v) <==> !LoweredPartings(w)(v)
      ensures Target(w.x, w.frames).Machine()(v).Going? ==> MappedThreads(w.x)(Target(w.x, w.frames).Machine()(v).t)
    {
      var s: Thread :| GoodThread(w.x, s) && v == MapThread(w.x.Map(), s);
      LoweredNextMapped(w, v, s);
    }
  }

  /** Lowering the calls and returns keeps every run, across calls and returns, if and only if it
      reaches no return with a pending activation and an empty operand stack, and no open end. */
  lemma LoweredRunsAgreeIff(w: Finished, t: Thread)
    requires w.Ready() && GoodThread(w.x, t)
    ensures var u := MapThread(w.x.Map(), t);
      (forall m: nat :: LoweredSame(w, u, m)) <==> forall n: nat :: !ReachesParting(w, u, n)
  {
    var u := MapThread(w.x.Map(), t);
    LoweredDiffer(w);
    assert MappedThreads(w.x)(u);
    if n: nat :| ReachesParting(w, u, n) {
      var v := Target(w.x, w.frames).Run(u, n).t;
      InvariantHolds(Target(w.x, w.frames).Machine(), MappedThreads(w.x), u, n);
      assert LoweredPartings(w)(v);
      PartOnce(Target(w.x, w.frames).Machine(), w.Optimized().Machine(), u, n, v);
      assert !LoweredSame(w, u, n) || !LoweredSame(w, u, n + 1);
    } else {
      forall m: nat ensures LoweredSame(w, u, m) {
        NeverParts(w, u, m);
        SameUntil(Target(w.x, w.frames).Machine(), w.Optimized().Machine(), MappedThreads(w.x), LoweredPartings(w), u, m);
      }
    }
  }

  lemma NeverParts(w: Finished, u: Thread, m: nat)
    requires forall n: nat :: !ReachesParting(w, u, n)
    ensures forall i: nat :: i < m && RunOf(Target(w.x, w.frames).Machine(), u, i).Going? ==>
      !LoweredPartings(w)(RunOf(Target(w.x, w.frames).Machine(), u, i).t)
  {
    forall i: nat | i < m && RunOf(Target(w.x, w.frames).Machine(), u, i).Going?
      ensures !LoweredPartings(w)(RunOf(Target(w.x, w.frames).Machine(), u, i).t)
    {
      assert !ReachesParting(w, u, i);
    }
  }

  lemma OptimizedNext(w: Finished, t: Thread)
    requires w.Ready() && GoodThread(w.x, t)
    ensures w.Optimized().Next(MapThread(w.x.Map(), t)) == MapResult(w.x.Map(), FinalNext(w.x, w.frames, w.Finish(), t))
    ensures FinalNext(w.x, w.frames, w.Finish(), t).Going? ==> GoodThread(w.x, FinalNext(w.x, w.frames, w.Finish(), t).t)
  {
    LoweredNext(w, t);
    NextSimulated(w.x, w.frames, t);
  }

  /** Every run of what the optimizer returns, with whatever is fused, is the mapped run of the
      reference: block by block, through all calls and returns. */
  lemma OptimizedCallsSimulated(w: Finished, t: Thread, m: nat)
    requires w.Ready() && GoodThread(w.x, t)
    ensures var r := RunOf(FinalThreads(w.x, w.frames, w.Finish()), t, m);
      && w.Optimized().Run(MapThread(w.x.Map(), t), m) == MapResult(w.x.Map(), r)
      && (r.Going? ==> GoodThread(w.x, r.t))
  {
    var one, two, good := FinalThreads(w.x, w.frames, w.Finish()), w.Optimized().Machine(), GoodThreads(w.x);
    var f, g := Mapping(w.x.Map()), ResultMapping(w.x.Map());
    forall u: Thread {:trigger good(u)} | good(u)
      ensures two(f(u)) == g(one(u)) && (one(u).Going? ==> good(one(u).t))
    {
      OptimizedNext(w, u);
    }
    RunsMap(one, two, f, g, good, t, m);
  }

  /** The optimized run of `m` steps ends as the mapped canonical run of `n` steps does, at least
      as many if it still runs. */
  ghost predicate RunsAsCanonical(w: Finished, t: Thread, m: nat, n: nat) {
    var r := w.Canonical().Run(t, n);
    w.Optimized().Run(MapThread(w.x.Map(), t), m) == MapResult(w.x.Map(), r) && (r.Going? ==> n >= m)
  }

  /** How the optimized run ends where it parts from the canonical one: in the trap of a range loop
      with step zero, reading outside the code, or with a value from below the stack. */
  ghost function PartedEnd(w: Finished, u: Thread): Result {
    if ZeroHeader(w.x, u.s) then Ended(Stops(ZeroStep(w.x.Map().State(u.s)), MapRest(w.x.Map(), u.rest)))
    else if u.s.pc == |w.x.c.code| then Ended(Stops(Wild, MapRest(w.x.Map(), u.rest)))
    else Ended(BelowStack)
  }

  /** The canonical run reaches such a place between blocks, and the optimized run ends there. */
  ghost predicate PartsFromCanonical(w: Finished, t: Thread, m: nat, n: nat, u: Thread) {
    && MeetsParting(w.x, w.frames, w.Finish(), t, n, u)
    && w.Optimized().Run(MapThread(w.x.Map(), t), m) == PartedEnd(w, u)
  }

  ghost predicate RunsCanonically(w: Finished, t: Thread, m: nat) {
    exists n: nat :: RunsAsCanonical(w, t, m, n)
  }

  ghost predicate HasParted(w: Finished, t: Thread, m: nat) {
    exists n: nat, u: Thread :: PartsFromCanonical(w, t, m, n, u)
  }

  lemma StraysMapped(p: Place, r: Result)
    ensures Strays(MapResult(p, r)) <==> Strays(r)
  {
  }

  lemma HasPartedHere(w: Finished, t: Thread, m: nat, n: nat, u: Thread)
    requires w.Ready() && MeetsParting(w.x, w.frames, w.Finish(), t, n, u)
    requires w.Optimized().Run(MapThread(w.x.Map(), t), m) == MapResult(w.x.Map(), FinalNext(w.x, w.frames, w.Finish(), u))
    ensures HasParted(w, t, m)
  {
    PartingIs(w, u);
    assert PartsFromCanonical(w, t, m, n, u);
  }

  lemma RunsHere(w: Finished, t: Thread, m: nat, r: Result)
    requires w.Optimized().Run(MapThread(w.x.Map(), t), m) == MapResult(w.x.Map(), r)
    requires CanonicalAt(w.x, w.frames, t, r, m)
    ensures RunsCanonically(w, t, m)
  {
    var n: nat :| CanonicalAfter(w.x, w.frames, t, r, m, n);
    assert RunsAsCanonical(w, t, m, n);
  }

  /** What the whole optimizer returns keeps the meaning of the chunk, across calls and returns:
      after any number of steps its run is the mapped canonical run, or it has parted from it at
      a range loop with step zero, at a return without a value or at an open end. */
  lemma OptimizerPreservesMeaning(w: Finished, t: Thread, m: nat)
    requires w.Ready() && NoIncrement(w.x) && GoodThread(w.x, t)
    ensures if Strays(w.Optimized().Run(MapThread(w.x.Map(), t), m)) then HasParted(w, t, m) else RunsCanonically(w, t, m)
  {
    var r := RunOf(FinalThreads(w.x, w.frames, w.Finish()), t, m);
    OptimizedCallsSimulated(w, t, m);
    FinalIsCanonical(w.x, w.frames, w.Finish(), t, m);
    StraysMapped(w.x.Map(), r);
    if Strays(r) {
      var n: nat, u: Thread :| MeetsParting(w.x, w.frames, w.Finish(), t, n, u) && r == FinalNext(w.x, w.frames, w.Finish(), u);
      HasPartedHere(w, t, m, n, u);
    } else {
      RunsHere(w, t, m, r);
    }
  }

  lemma PartingIs(w: Finished, u: Thread)
    requires w.Ready() && Parts(w.x, w.Finish(), u)
    ensures MapResult(w.x.Map(), FinalNext(w.x, w.frames, w.Finish(), u)) == PartedEnd(w, u)
  {
    NotABlock(w.x);
    if ZeroHeader(w.x, u.s) {
      ZeroHeaderTraps(w.x, u.s);
    }
  }

  lemma PartingIsSeen(w: Finished, t: Thread, n: nat, u: Thread)
    requires w.Ready() && NoIncrement(w.x) && GoodThread(w.x, t)
    requires MeetsParting(w.x, w.frames, w.Finish(), t, n, u)
    ensures Strays(w.Optimized().Run(MapThread(w.x.Map(), t), n + 1))
  {
    PartingIsReached(w.x, w.frames, w.Finish(), t, n, u);
    OptimizedCallsSimulated(w, t, n + 1);
    StraysMapped(w.x.Map(), RunOf(FinalThreads(w.x, w.frames, w.Finish()), t, n + 1));
  }

  lemma StrayedIsNotCanonical(w: Finished, t: Thread, m: nat)
    requires w.Ready() && GoodThread(w.x, t) && Strays(w.Optimized().Run(MapThread(w.x.Map(), t), m))
    ensures !RunsCanonically(w, t, m)
  {
    forall k: nat {:trigger RunsAsCanonical(w, t, m, k)} ensures !RunsAsCanonical(w, t, m, k) {
      NotCanonicalAfter(w, t, m, k);
    }
  }

  lemma NotCanonicalAfter(w: Finished, t: Thread, m: nat, k: nat)
    requires w.Ready() && GoodThread(w.x, t) && Strays(w.Optimized().Run(MapThread(w.x.Map(), t), m))
    ensures !RunsAsCanonical(w, t, m, k)
  {
    CanonicalNeverStrays(w.x, w.frames, t, k);
    StraysMapped(w.x.Map(), w.Canonical().Run(t, k));
  }

  /** All runs are mapped canonical runs, through all calls and returns, if and only if the
      canonical run meets no range loop with step zero, no lowered return with a pending
      activation and an empty operand stack, and no open end. */
  lemma OptimizerExactIff(w: Finished, t: Thread)
    requires w.Ready() && NoIncrement(w.x) && GoodThread(w.x, t)
    ensures (forall m: nat :: RunsCanonically(w, t, m)) <==> !EverParts(w.x, w.frames, w.Finish(), t)
  {
    if EverParts(w.x, w.frames, w.Finish(), t) {
      var n: nat, u: Thread :| MeetsParting(w.x, w.frames, w.Finish(), t, n, u);
      PartingIsSeen(w, t, n, u);
      StrayedIsNotCanonical(w, t, n + 1);
    } else {
      forall m: nat ensures RunsCanonically(w, t, m) {
        OptimizerPreservesMeaning(w, t, m);
        assert !HasParted(w, t, m);
      }
    }
  }

  lemma LoweredTouches(w: Finished, ip: nat)
    requires Lowers(w, ip)
    ensures OptLen(w.Low()[ip]) == OptLen(w.x.body[ip]) && ip + OptLen(w.Low()[ip]) <= |w.x.body|
    ensures forall k :: k in Touched(Decode(w.Code(), ip)) ==> k in Touched(Decode(Sealed(w.x.body), ip))
  {
    LowKept(w, ip);
    SealedDecodes(w.Low(), ip);
    SealedDecodes(w.x.body, ip);
    if w.x.body[ip] == OP_CALL || w.x.body[ip] == OP_RET {
      LoweredOpcode(w, ip);
      CallsYield(w.Low(), ip);
    } else {
      SameDecode(w.x.body, w.Low(), ip);
    }
  }

  /** In every run of the returned code, across calls and returns, whatever is about to execute
      uses only slots of the frame that the scan sized for it before the calls were lowered. */
  lemma LoweredRunsStayInFrames(w: Finished, t: Thread, m: nat, top: nat)
    requires w.Ready() && GoodThread(w.x, t)
    requires |w.table| <= |w.frames| && AllCovered(w.x.body, w.table, w.frames, top)
    ensures var r := w.Optimized().Run(MapThread(w.x.Map(), t), m);
      r.Going? && r.t.s.pc != |w.x.body| ==>
        0 <= r.t.s.pc < |w.x.body| && r.t.s.pc + OptLen(w.Code()[r.t.s.pc]) <= |w.x.body| &&
        forall k :: k in Touched(Decode(w.Code(), r.t.s.pc)) ==> k < FrameAt(w.table, w.frames, top, r.t.s.pc)
  {
    OptimizedCallsSimulated(w, t, m);
    var r := RunOf(FinalThreads(w.x, w.frames, w.Finish()), t, m);
    if r.Going? {
      PlaceInFrame(w, r.t.s, top);
    }
  }

  lemma PlaceInFrame(w: Finished, s: State, top: nat)
    requires w.x.Sound() && w.x.Good(s) && |w.table| <= |w.frames| && AllCovered(w.x.body, w.table, w.frames, top)
    ensures var ip := w.x.Map().Pc(s.pc);
      ip != |w.x.body| ==>
        ip < |w.x.body| && ip + OptLen(w.Code()[ip]) <= |w.x.body| &&
        forall k :: k in Touched(Decode(w.Code(), ip)) ==> k < FrameAt(w.table, w.frames, top, ip)
  {
    PlaceLowers(w, s);
    if w.x.AtBlock(s.pc) {
      SlotsInFrame(w.x, s, w.table, w.frames, top);
    } else {
      BoundaryMapped(w.x.In(), w.x.lay, w.x.pcs, w.x.body, Blocks(w.x.lay));
    }
  }

  lemma PlaceLowers(w: Finished, u: State)
    requires w.x.Sound() && w.x.Good(u)
    ensures var ip := w.x.Map().Pc(u.pc);
      ip == |w.x.body| ||
      (Lowers(w, ip) && OptLen(w.Low()[ip]) == OptLen(w.x.body[ip]) && w.Code()[ip] == w.Low()[ip]
       && forall k :: k in Touched(Decode(w.Code(), ip)) ==> k in Touched(Decode(Sealed(w.x.body), ip)))
  {
    if w.x.AtBlock(u.pc) {
      var i: nat :| i < Blocks(w.x.lay) && Adjacent(w.x.In(), w.x.lay, i) && w.x.lay.starts[i] == u.pc;
      BoundaryMapped(w.x.In(), w.x.lay, w.x.pcs, w.x.body, i);
      BlockLowers(w, i);
      LoweredTouches(w, w.x.lay.outs[i]);
    }
  }
}
