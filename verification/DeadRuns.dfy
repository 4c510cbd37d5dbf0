/**
 Whole runs of chunks with fused increments, across calls and returns: the optimized run is the
 canonical one without the values that increments left on the operand stacks. Which values those
 are is computed along the canonical run; that no instruction uses one can be read off the chunk
 from a height for every instruction.
 */
module DeadRuns {
  import opened Bytes
  import opened Vm
  import opened Optimizer
  import opened Passes
  import opened Relocation
  import opened BlockSemantics
  import opened CanonicalRuns
  import opened Simulation
  import opened Fusion
  import opened FastCalls
  import opened Calls
  import opened CallRuns
  import opened DeadValues
  import opened Pipeline

  /** Marks for the current operand stack and for the stack under each pending activation. */
  datatype Notes = Notes(now: Marks, under: seq<Marks>)

  /** Nothing is dead. */
  function Unmarked(t: Thread): Notes {
    Notes(AllLive, seq(|t.rest.frames|, _ => AllLive))
  }

  predicate FrameUpTo(f: Frame, g: Frame, m: Marks) {
    f == g.(under := f.under) && f.under == LiveView(g.under, m)
  }

  predicate FramesUpTo(fs: seq<Frame>, gs: seq<Frame>, under: seq<Marks>) {
    |fs| == |gs| == |under| && forall i :: 0 <= i < |fs| ==> FrameUpTo(fs[i], gs[i], under[i])
  }

  predicate RestUpTo(r: Rest, q: Rest, under: seq<Marks>) {
    r == q.(frames := r.frames) && FramesUpTo(r.frames, q.frames, under)
  }

  /** `t` is `u` without the dead values of all its stacks. */
  predicate ThreadUpTo(t: Thread, u: Thread, n: Notes) {
    UpTo(t.s, u.s, n.now) && RestUpTo(t.rest, u.rest, n.under)
  }

  predicate ResultUpTo(r: Result, q: Result, n: Notes) {
    match r
    case Going(t) => q.Going? && ThreadUpTo(t, q.t, n)
    case Ended(Stops(o, rest)) => q.Ended? && q.e.Stops? && OutcomeUpTo(o, q.e.o, n.now) && RestUpTo(rest, q.e.rest, n.under)
    case Ended(_) => q == r
  }

  // ------------------------------------------------------- calls and returns

  function DropMarks(m: Marks, n: nat): Marks {
    if n == 0 then m else DropMarks(Deeper(m), n - 1)
  }

  /** When the `n` entries from the top are live, both stacks give the same `n` values. */
  lemma {:induction false} DropUpTo(s: Stack, m: Marks, n: nat)
    requires TopLive(m, n)
    ensures Depth(LiveView(s, m)) < n <==> Depth(s) < n
    ensures Dropped(LiveView(s, m), n) == LiveView(Dropped(s, n), DropMarks(m, n))
    ensures Arguments(LiveView(s, m), n) == Arguments(s, n)
    decreases n
  {
    if n > 0 {
      ViewTop(s, m);
      if s.Push? {
        DropUpTo(s.below, Deeper(m), n - 1);
      } else {
        AllDropped(m, n);
      }
    }
  }

  lemma {:induction false} AllDropped(m: Marks, n: nat)
    ensures LiveView(Empty, DropMarks(m, n)) == Empty
  {
  }

  /** Inside the called function: the arguments are gone, from the caller's stack too. */
  function NotesEntered(n: Notes, argc: nat): Notes {
    Notes(DropMarks(n.now, argc), n.under + [DropMarks(n.now, argc)])
  }

  lemma FramesPushed(fs: seq<Frame>, gs: seq<Frame>, under: seq<Marks>, f: Frame, g: Frame, m: Marks)
    requires FramesUpTo(fs, gs, under) && FrameUpTo(f, g, m)
    ensures FramesUpTo(fs + [f], gs + [g], under + [m])
  {
  }

  lemma EnteredUpTo(s: State, r: Rest, t: State, q: Rest, n: Notes, call: Call)
    requires UpTo(s, t, n.now) && RestUpTo(r, q, n.under) && call.Call? && TopLive(n.now, call.argc)
    ensures ThreadUpTo(Entered(s, r, call), Entered(t, q, call), NotesEntered(n, call.argc))
  {
    var m := DropMarks(n.now, call.argc);
    DropUpTo(t.stack, n.now, call.argc);
    BaseUpTo(r.frames, q.frames, n.under);
    FramesPushed(r.frames, q.frames, n.under,
                 Frame(call.back, r.top, call.frame, Dropped(s.stack, call.argc)),
                 Frame(call.back, q.top, call.frame, Dropped(t.stack, call.argc)), m);
  }

  lemma EnterUpTo(s: State, r: Rest, t: State, q: Rest, n: Notes, call: Call)
    requires UpTo(s, t, n.now) && RestUpTo(r, q, n.under) && (call.Call? ==> TopLive(n.now, call.argc))
    ensures var e := Enter(t, q, call);
      ResultUpTo(Enter(s, r, call), e, if e.Going? then NotesEntered(n, call.argc) else n)
  {
    if call.Call? {
      DropUpTo(t.stack, n.now, call.argc);
      EnteredUpTo(s, r, t, q, n, call);
    }
  }

  lemma BaseUpTo(fs: seq<Frame>, gs: seq<Frame>, under: seq<Marks>)
    requires FramesUpTo(fs, gs, under)
    ensures Base(fs) == Base(gs)
  {
    if fs != [] {
      assert FrameUpTo(fs[|fs| - 1], gs[|gs| - 1], under[|under| - 1]);
    }
  }

  lemma LeaveUpTo(s: State, r: Rest, t: State, q: Rest, n: Notes)
    requires UpTo(s, t, n.now) && RestUpTo(r, q, n.under) && TopLive(n.now, 1)
    ensures ResultUpTo(Leave(s, r, true), Leave(t, q, true), NotesReturned(n))
  {
    ViewTop(t.stack, n.now);
    if r.frames != [] {
      var k := |r.frames| - 1;
      assert FrameUpTo(r.frames[k], q.frames[k], n.under[k]);
      BaseUpTo(r.frames[..k], q.frames[..k], n.under[..k]);
    }
  }

  /** The returned value is live, on the stack that the caller had. */
  function NotesReturned(n: Notes): Notes {
    if n.under == [] then n
    else Notes(Mark(true, n.under[|n.under| - 1]), n.under[..|n.under| - 1])
  }

  // -------------------------------------------------------------- one block

  /** The arguments of a call and the value of a return. */
  predicate HandsLive(c: seq<Byte>, u: Thread, m: Marks) {
    0 <= u.s.pc < |c| ==>
      && (c[u.s.pc] == OP_CALL && u.s.pc + 4 <= |c| ==> TopLive(m, c[u.s.pc + 3]))
      && (c[u.s.pc] == OP_RET ==> TopLive(m, 1))
  }

  /** The canonical instructions of the block at `u`, and the call or return after them, use live values only. */
  ghost predicate ThreadLive(x: Compiled, u: Thread, n: Notes) {
    BlockLive(x)(u.s, n.now) && HandsLive(x.c.code, u, n.now)
  }

  /** The canonical run of the block at `u`. */
  ghost function BlockRun(x: Compiled, sizes: seq<nat>, u: Thread): Result {
    Source(x, sizes).Run(u, StepsOfBlock(x)(u.s))
  }

  /** The notes after it. Only a fused increment adds a dead value. */
  ghost function NotesAfter(x: Compiled, sizes: seq<nat>, u: Thread, n: Notes): Notes {
    var c := x.c.code;
    if 0 <= u.s.pc && u.s.pc + 4 <= |c| && c[u.s.pc] == OP_CALL then
      if BlockRun(x, sizes, u).Going? then NotesEntered(n, c[u.s.pc + 3]) else n
    else if 0 <= u.s.pc < |c| && c[u.s.pc] == OP_RET then NotesReturned(n)
    else n.(now := BlockMarks(x)(u.s, n.now))
  }

  lemma YieldsAlike(c: seq<Byte>, s: State, t: State)
    requires Step(c, true, s).Yield? && t.pc == s.pc
    ensures Step(c, true, t) == Yield(t, Step(c, true, s).op, Step(c, true, s).operands)
  {
  }

  lemma YieldingIsOne(x: Compiled, s: State)
    requires x.Sound() && x.AtBlock(s.pc) && x.RefBlock(s).Yield?
    ensures 0 <= s.pc < |x.c.code| && x.RefBlock(s) == Step(x.c.code, true, s) == Yield(s, x.c.code[s.pc], x.RefBlock(s).operands)
    ensures forall t: State {:trigger StepsOfBlock(x)(t)} :: t.pc == s.pc ==> StepsOfBlock(x)(t) == 1
  {
    YieldingBlock(x, s);
    SingleBlock(x, s);
  }

  lemma ReturnUpTo(x: Compiled, sizes: seq<nat>, t: Thread, u: Thread, n: Notes)
    requires x.Sound() && x.AtBlock(t.s.pc) && ThreadUpTo(t, u, n) && HandsLive(x.c.code, u, n.now)
    requires x.RefBlock(t.s).Yield? && 0 <= t.s.pc < |x.c.code| && x.c.code[t.s.pc] == OP_RET
    ensures ResultUpTo(RefNext(x, sizes, t), BlockRun(x, sizes, u), NotesAfter(x, sizes, u, n))
  {
    YieldingIsOne(x, t.s);
    YieldsAlike(x.c.code, t.s, u.s);
    OneStep(x.c.code, u.s);
    ResumeRun(Source(x, sizes), u, 1);
    LeaveUpTo(t.s, t.rest, u.s, u.rest, n);
  }

  lemma CallUpTo(x: Compiled, sizes: seq<nat>, t: Thread, u: Thread, n: Notes)
    requires x.Sound() && x.AtBlock(t.s.pc) && ThreadUpTo(t, u, n) && HandsLive(x.c.code, u, n.now)
    requires x.RefBlock(t.s).Yield? && 0 <= t.s.pc && t.s.pc + 4 <= |x.c.code| && x.c.code[t.s.pc] == OP_CALL
    ensures ResultUpTo(RefNext(x, sizes, t), BlockRun(x, sizes, u), NotesAfter(x, sizes, u, n))
  {
    CallBothWays(x, sizes, t, u);
    CalledUpTo(Source(x, sizes), t, u, n, RefNext(x, sizes, t), BlockRun(x, sizes, u));
    NotesOfCall(x, sizes, u, n);
  }

  lemma NotesOfCall(x: Compiled, sizes: seq<nat>, u: Thread, n: Notes)
    requires 0 <= u.s.pc && u.s.pc + 4 <= |x.c.code| && x.c.code[u.s.pc] == OP_CALL
    ensures NotesAfter(x, sizes, u, n)
         == if BlockRun(x, sizes, u).Going? then NotesEntered(n, x.c.code[u.s.pc + 3]) else n
  {
  }

  /** The outcomes `r` and `q` of the same call. */
  lemma CalledUpTo(p: Program, t: Thread, u: Thread, n: Notes, r: Result, q: Result)
    requires ThreadUpTo(t, u, n) && HandsLive(p.code, u, n.now)
    requires 0 <= t.s.pc && t.s.pc + 4 <= |p.code| && p.code[t.s.pc] == OP_CALL
    requires r == Enter(t.s, t.rest, Called(p.code, p.table, p.sizes, t.s.pc))
    requires q == Enter(u.s, u.rest, Called(p.code, p.table, p.sizes, t.s.pc))
    ensures ResultUpTo(r, q, if q.Going? then NotesEntered(n, p.code[u.s.pc + 3]) else n)
  {
    EnterIs(u.s, u.rest, Called(p.code, p.table, p.sizes, t.s.pc));
    EnterUpTo(t.s, t.rest, u.s, u.rest, n, Called(p.code, p.table, p.sizes, t.s.pc));
  }

  /** The same call from two threads at the same place. */
  lemma CallBothWays(x: Compiled, sizes: seq<nat>, t: Thread, u: Thread)
    requires x.Sound() && x.AtBlock(t.s.pc) && x.RefBlock(t.s).Yield? && u.s.pc == t.s.pc
    requires 0 <= t.s.pc < |x.c.code| && x.c.code[t.s.pc] == OP_CALL
    ensures var call := Called(x.c.code, x.c.functionTable, sizes, t.s.pc);
      RefNext(x, sizes, t) == Enter(t.s, t.rest, call) && BlockRun(x, sizes, u) == Enter(u.s, u.rest, call)
  {
    var operands := x.RefBlock(t.s).operands;
    YieldingIsOne(x, t.s);
    YieldsAlike(x.c.code, t.s, u.s);
    OneStep(x.c.code, u.s);
    ResumeRun(Source(x, sizes), u, 1);
    ResumeCall(Source(x, sizes), t.s, operands, t.rest);
    ResumeCall(Source(x, sizes), u.s, operands, u.rest);
  }

  lemma ResumeUpTo(p: Program, o: Outcome, r: Rest, q: Outcome, v: Rest, n: Notes)
    requires OutcomeUpTo(o, q, n.now) && RestUpTo(r, v, n.under) && !HandsOver(o)
    ensures ResultUpTo(p.Resume(o, r), p.Resume(q, v), n)
  {
  }

  lemma PlainUpTo(x: Compiled, sizes: seq<nat>, t: Thread, u: Thread, n: Notes)
    requires x.Sound() && GoodThread(x, t) && ThreadUpTo(t, u, n) && ThreadLive(x, u, n) && !ZeroHeader(x, t.s)
    requires !HandsOver(x.RefBlock(t.s))
    requires 0 <= t.s.pc < |x.c.code| ==> x.c.code[t.s.pc] != OP_CALL && x.c.code[t.s.pc] != OP_RET
    ensures ResultUpTo(RefNext(x, sizes, t), BlockRun(x, sizes, u), NotesAfter(x, sizes, u, n))
  {
    var k := StepsOfBlock(x)(u.s);
    BlockUpTo(x, t.s, u.s, n.now, k);
    ResumeRun(Source(x, sizes), u, k);
    ResumeUpTo(Source(x, sizes), x.RefBlock(t.s), t.rest, Run(x.c.code, true, u.s, k), u.rest, NotesAfter(x, sizes, u, n));
  }

  /** One block of the reference against the canonical instructions, on threads that differ by dead values. */
  lemma NextUpTo(x: Compiled, sizes: seq<nat>, f: Finish, t: Thread, u: Thread, n: Notes)
    requires x.Sound() && CallsAreSound(x) && GoodThread(x, t) && ThreadUpTo(t, u, n) && ThreadLive(x, u, n)
    requires !Parts(x, f, t)
    ensures ResultUpTo(FinalNext(x, sizes, f, t), BlockRun(x, sizes, u), NotesAfter(x, sizes, u, n))
  {
    if x.AtBlock(t.s.pc) && x.RefBlock(t.s).Yield? {
      YieldingBlock(x, t.s);
      var i: nat :| i < Blocks(x.lay) && Adjacent(x.In(), x.lay, i) && x.lay.starts[i] == t.s.pc;
      StartsReached(x.In(), x.lay, i);
      if x.c.code[t.s.pc] == OP_RET {
        ReturnUpTo(x, sizes, t, u, n);
      } else if x.c.code[t.s.pc] == OP_CALL {
        CallUpTo(x, sizes, t, u, n);
      } else {
        assert !FastForm(x.c.code[t.s.pc]);
        PlainUpTo(x, sizes, t, u, n);
      }
    } else {
      if 0 <= t.s.pc < |x.c.code| && (x.c.code[t.s.pc] == OP_CALL || x.c.code[t.s.pc] == OP_RET) {
        CallsHandOver(x, t.s);
      }
      PlainUpTo(x, sizes, t, u, n);
    }
  }

  /** Conversely calls and returns do hand over. */
  lemma CallsHandOver(x: Compiled, s: State)
    requires x.Sound() && x.Good(s) && 0 <= s.pc < |x.c.code| && (x.c.code[s.pc] == OP_CALL || x.c.code[s.pc] == OP_RET)
    ensures x.AtBlock(s.pc) && x.RefBlock(s).Yield?
  {
    BlockSimulated(x, s);
    CallIsOneBlock(x.In(), s.pc);
    SingleBlock(x, s);
    WholeAtBlock(x, s.pc);
    CallStepYields(x.c.code, s);
  }

  // -------------------- runs of any machine, block by block, up to dead values

  /** Steps taken and notes made during some blocks. */
  datatype Progress = Progress(steps: nat, notes: Notes)

  /** The next `b` blocks from `u`: `block` runs one, in `work` steps, and `after` makes the notes. */
  function Through(block: Thread -> Result, work: Thread -> nat, after: (Thread, Notes) -> Notes,
                   u: Thread, n: Notes, b: nat): Progress
    decreases b
  {
    if b == 0 then Progress(0, n)
    else
      match block(u)
      case Going(v) =>
        var p := Through(block, work, after, v, after(u, n), b - 1);
        Progress(work(u) + p.steps, p.notes)
      case _ => Progress(work(u), after(u, n))
  }

  /** During those blocks nothing uses a dead value. */
  predicate LiveThrough(block: Thread -> Result, after: (Thread, Notes) -> Notes, live: (Thread, Notes) -> bool,
                        u: Thread, n: Notes, b: nat)
    decreases b
  {
    b == 0 || (live(u, n) && (block(u).Going? ==> LiveThrough(block, after, live, block(u).t, after(u, n), b - 1)))
  }

  /** The result `r` is the one of `step` after that progress, without the values noted as dead. */
  predicate MatchesUpTo(step: Thread -> Result, u: Thread, p: Progress, r: Result, b: nat) {
    ResultUpTo(r, RunOf(step, u, p.steps), p.notes) && (r.Going? ==> p.steps >= b)
  }

  /** After `j` blocks the thread is, without those values, `v`, where `ref` ends on its own. */
  ghost predicate PartsUpTo(ref: Thread -> Result, step: Thread -> Result, trap: Thread -> bool,
                            u: Thread, p: Progress, r: Result, j: nat, v: Thread) {
    MatchesUpTo(step, u, p, Going(v), j) && trap(v) && r == ref(v)
  }

  /** What `b` steps of `ref` look like from the run of `step`, with `work` for the blocks. */
  ghost predicate Seen(ref: Thread -> Result, step: Thread -> Result, block: Thread -> Result, work: Thread -> nat,
                       after: (Thread, Notes) -> Notes, trap: Thread -> bool, u: Thread, n: Notes, r: Result, b: nat) {
    || MatchesUpTo(step, u, Through(block, work, after, u, n, b), r, b)
    || exists j: nat, v: Thread :: j < b && PartsUpTo(ref, step, trap, u, Through(block, work, after, u, n, j), r, j, v)
  }

  lemma SeenParting(ref: Thread -> Result, step: Thread -> Result, block: Thread -> Result, work: Thread -> nat,
                    after: (Thread, Notes) -> Notes, trap: Thread -> bool, u: Thread, n: Notes, r: Result, b: nat)
    returns (j: nat, v: Thread)
    requires Seen(ref, step, block, work, after, trap, u, n, r, b)
    requires !MatchesUpTo(step, u, Through(block, work, after, u, n, b), r, b)
    ensures j < b && PartsUpTo(ref, step, trap, u, Through(block, work, after, u, n, j), r, j, v)
  {
    j, v :| j < b && PartsUpTo(ref, step, trap, u, Through(block, work, after, u, n, j), r, j, v);
  }

  /** Up to dead values, a step of `ref` is a block of `step`, except where it ends on its own. */
  ghost predicate RefinesUpTo(ref: Thread -> Result, step: Thread -> Result, block: Thread -> Result, work: Thread -> nat,
                              after: (Thread, Notes) -> Notes, live: (Thread, Notes) -> bool,
                              good: Thread -> bool, trap: Thread -> bool) {
    forall t: Thread, u: Thread, n: Notes {:trigger ThreadUpTo(t, u, n)} ::
      good(t) && ThreadUpTo(t, u, n) && live(u, n) ==>
        && work(u) >= 1 && block(u) == RunOf(step, u, work(u))
        && (if trap(t) then ref(t).Ended? else ResultUpTo(ref(t), block(u), after(u, n)))
        && (ref(t).Going? ==> good(ref(t).t))
  }

  lemma MatchesEarlier(step: Thread -> Result, u: Thread, k: nat, v: Thread, p: Progress, r: Result, b: nat)
    requires RunOf(step, u, k) == Going(v) && k >= 1 && MatchesUpTo(step, v, p, r, b)
    ensures MatchesUpTo(step, u, Progress(k + p.steps, p.notes), r, b + 1)
  {
    RunAppends(step, u, k, p.steps);
  }

  /** What is seen after the first block is seen from before it. */
  lemma SeenEarlier(ref: Thread -> Result, step: Thread -> Result, block: Thread -> Result, work: Thread -> nat,
                    after: (Thread, Notes) -> Notes, trap: Thread -> bool, u: Thread, n: Notes, r: Result, b: nat, v: Thread)
    requires work(u) >= 1 && block(u) == RunOf(step, u, work(u)) == Going(v)
    requires Seen(ref, step, block, work, after, trap, v, after(u, n), r, b)
    ensures Seen(ref, step, block, work, after, trap, u, n, r, b + 1)
  {
    var p := Through(block, work, after, v, after(u, n), b);
    if MatchesUpTo(step, v, p, r, b) {
      MatchesEarlier(step, u, work(u), v, p, r, b);
    } else {
      var j: nat, w: Thread :| j < b && PartsUpTo(ref, step, trap, v, Through(block, work, after, v, after(u, n), j), r, j, w);
      MatchesEarlier(step, u, work(u), v, Through(block, work, after, v, after(u, n), j), Going(w), j);
      assert PartsUpTo(ref, step, trap, u, Through(block, work, after, u, n, j + 1), r, j + 1, w);
    }
  }

  lemma {:induction false} RefinedUpTo(ref: Thread -> Result, step: Thread -> Result, block: Thread -> Result,
                                       work: Thread -> nat, after: (Thread, Notes) -> Notes,
                                       live: (Thread, Notes) -> bool, good: Thread -> bool, trap: Thread -> bool,
                                       t: Thread, u: Thread, n: Notes, b: nat)
    requires RefinesUpTo(ref, step, block, work, after, live, good, trap)
    requires good(t) && ThreadUpTo(t, u, n) && LiveThrough(block, after, live, u, n, b)
    ensures Seen(ref, step, block, work, after, trap, u, n, RunOf(ref, t, b), b)
    decreases b
  {
    if b > 0 {
      if trap(t) {
        assert Through(block, work, after, u, n, 0) == Progress(0, n);
        assert PartsUpTo(ref, step, trap, u, Progress(0, n), ref(t), 0, t);
      } else if ref(t).Going? {
        var v := block(u).t;
        RefinedUpTo(ref, step, block, work, after, live, good, trap, ref(t).t, v, after(u, n), b - 1);
        SeenEarlier(ref, step, block, work, after, trap, u, n, RunOf(ref, ref(t).t, b - 1), b - 1, v);
      } else {
        assert MatchesUpTo(step, u, Progress(work(u), after(u, n)), ref(t), b);
      }
    }
  }

  /** What makes every block use live values only, and lasts, does so for whole runs. */
  lemma {:induction false} LiveAlways(block: Thread -> Result, after: (Thread, Notes) -> Notes, live: (Thread, Notes) -> bool,
                                      inv: (Thread, Notes) -> bool, u: Thread, n: Notes, b: nat)
    requires forall v: Thread, k: Notes {:trigger inv(v, k)} :: inv(v, k) ==>
      live(v, k) && (block(v).Going? ==> inv(block(v).t, after(v, k)))
    requires inv(u, n)
    ensures LiveThrough(block, after, live, u, n, b)
    decreases b
  {
    if b > 0 && block(u).Going? {
      LiveAlways(block, after, live, inv, block(u).t, after(u, n), b - 1);
    }
  }

  // -------------------------------------------------------- the two codes

  ghost function BlockMachine(x: Compiled, sizes: seq<nat>): Thread -> Result {
    (u: Thread) => BlockRun(x, sizes, u)
  }

  ghost function Noting(x: Compiled, sizes: seq<nat>): (Thread, Notes) -> Notes {
    (u: Thread, n: Notes) => NotesAfter(x, sizes, u, n)
  }

  ghost function Living(x: Compiled): (Thread, Notes) -> bool {
    (u: Thread, n: Notes) => ThreadLive(x, u, n)
  }

  ghost function StepsOfThread(x: Compiled): Thread -> nat {
    (u: Thread) => StepsOfBlock(x)(u.s)
  }

  lemma PositiveWork(x: Compiled, u: Thread)
    ensures StepsOfThread(x)(u) >= 1
  {
    assert StepsOfBlock(x)(u.s) == Work(KindOf(x, u.s));
  }

  lemma PartingEnds(x: Compiled, sizes: seq<nat>, f: Finish, t: Thread)
    requires x.Sound() && Parts(x, f, t)
    ensures FinalNext(x, sizes, f, t).Ended?
  {
    if ZeroHeader(x, t.s) {
      ZeroHeaderTraps(x, t.s);
    }
  }

  lemma BlocksRefineUpTo(x: Compiled, sizes: seq<nat>, f: Finish)
    requires x.Sound() && CallsAreSound(x)
    ensures RefinesUpTo(FinalThreads(x, sizes, f), Source(x, sizes).Machine(), BlockMachine(x, sizes), StepsOfThread(x),
                        Noting(x, sizes), Living(x), GoodThreads(x), PartingThreads(x, f))
  {
    forall t: Thread, u: Thread, n: Notes {:trigger ThreadUpTo(t, u, n)}
      | GoodThreads(x)(t) && ThreadUpTo(t, u, n) && Living(x)(u, n)
      ensures StepsOfThread(x)(u) >= 1
      ensures BlockMachine(x, sizes)(u) == RunOf(Source(x, sizes).Machine(), u, StepsOfThread(x)(u))
      ensures if PartingThreads(x, f)(t) then FinalThreads(x, sizes, f)(t).Ended?
              else ResultUpTo(FinalThreads(x, sizes, f)(t), BlockMachine(x, sizes)(u), Noting(x, sizes)(u, n))
      ensures FinalThreads(x, sizes, f)(t).Going? ==> GoodThreads(x)(FinalThreads(x, sizes, f)(t).t)
    {
      PositiveWork(x, u);
      NextSimulated(x, sizes, t);
      if Parts(x, f, t) {
        PartingEnds(x, sizes, f, t);
      } else {
        NextUpTo(x, sizes, f, t, u, n);
      }
    }
  }

  /** The canonical steps of the next `b` blocks from `t`, and the values that the increments
      among them leave: computed along the canonical run. */
  ghost function DeadAfter(w: Finished, t: Thread, b: nat): Progress {
    Through(BlockMachine(w.x, w.frames), StepsOfThread(w.x), Noting(w.x, w.frames), t, Unmarked(t), b)
  }

  /** During those blocks no instruction, call or return uses a value that an increment left. */
  ghost predicate DeadUnused(w: Finished, t: Thread, b: nat) {
    LiveThrough(BlockMachine(w.x, w.frames), Noting(w.x, w.frames), Living(w.x), t, Unmarked(t), b)
  }

  /** `r` is the canonical result after the `b` blocks, without exactly those values. */
  ghost predicate CanonicalUpToDead(w: Finished, t: Thread, r: Result, b: nat) {
    MatchesUpTo(w.Canonical().Machine(), t, DeadAfter(w, t, b), r, b)
  }

  /** After `j` blocks, without those values, the canonical thread is `v`, where the codes part. */
  ghost predicate PartsUpToDead(w: Finished, t: Thread, r: Result, j: nat, v: Thread) {
    CanonicalUpToDead(w, t, Going(v), j) && Parts(w.x, w.Finish(), v) && MapResult(w.x.Map(), r) == PartedEnd(w, v)
  }

  ghost predicate PartedUpToDead(w: Finished, t: Thread, r: Result, b: nat) {
    exists j: nat, v: Thread :: j < b && PartsUpToDead(w, t, r, j, v)
  }

  lemma UnmarkedIsSame(t: Thread)
    ensures ThreadUpTo(t, t, Unmarked(t))
  {
  }

  /** Runs with fused increments, across calls and returns: as long as nothing in the canonical
      run uses a value that an increment left behind, the run of what the optimizer returns is
      the mapped canonical run without exactly those values; every local, every global, every
      destination, every return address and every outcome is the same. */
  lemma FusionUpToDeadValues(w: Finished, t: Thread, b: nat)
    requires w.Ready() && GoodThread(w.x, t) && DeadUnused(w, t, b)
    ensures exists r: Result ::
      && w.Optimized().Run(MapThread(w.x.Map(), t), b) == MapResult(w.x.Map(), r)
      && (CanonicalUpToDead(w, t, r, b) || PartedUpToDead(w, t, r, b))
  {
    var r := RunOf(FinalThreads(w.x, w.frames, w.Finish()), t, b);
    OptimizedCallsSimulated(w, t, b);
    BlocksRefineUpTo(w.x, w.frames, w.Finish());
    UnmarkedIsSame(t);
    RefinedUpTo(FinalThreads(w.x, w.frames, w.Finish()), w.Canonical().Machine(), BlockMachine(w.x, w.frames),
                StepsOfThread(w.x), Noting(w.x, w.frames), Living(w.x), GoodThreads(w.x),
                PartingThreads(w.x, w.Finish()), t, t, Unmarked(t), b);
    SeenIs(w, t, r, b);
  }

  lemma PartsHere(w: Finished, t: Thread, r: Result, j: nat, v: Thread)
    requires w.Ready()
    requires PartsUpTo(FinalThreads(w.x, w.frames, w.Finish()), w.Canonical().Machine(), PartingThreads(w.x, w.Finish()),
                       t, DeadAfter(w, t, j), r, j, v)
    ensures PartsUpToDead(w, t, r, j, v)
  {
    PartingIs(w, v);
  }

  lemma SeenIs(w: Finished, t: Thread, r: Result, b: nat)
    requires w.Ready()
    requires Seen(FinalThreads(w.x, w.frames, w.Finish()), w.Canonical().Machine(), BlockMachine(w.x, w.frames),
                  StepsOfThread(w.x), Noting(w.x, w.frames), PartingThreads(w.x, w.Finish()), t, Unmarked(t), r, b)
    ensures CanonicalUpToDead(w, t, r, b) || PartedUpToDead(w, t, r, b)
  {
    if !CanonicalUpToDead(w, t, r, b) {
      var j, v := SeenParting(FinalThreads(w.x, w.frames, w.Finish()), w.Canonical().Machine(), BlockMachine(w.x, w.frames),
                              StepsOfThread(w.x), Noting(w.x, w.frames), PartingThreads(w.x, w.Finish()), t, Unmarked(t), r, b);
      PartsHere(w, t, r, j, v);
    }
  }
}
