/**
 Calls and returns: the bytecode machine together with its stack of pending activations.
 The machine of one activation hands a call or a return over; here it is executed.

 Locals live in one memory. An activation sees it from its own base on (`State.locals`);
 what lies below is kept beside (`lower`). Nothing is cleared: a new activation sees what
 earlier ones left above the first free slot.
 */
module Calls {
  import opened Bytes
  import opened Vm
  import opened FastCalls

  /** Pending activations that the fixed frame arena holds. */
  const MAX_CALL_DEPTH := 2048

  /** A pending activation: where it returns to, where its locals start, the size of its frame,
      and the operand stack below it, whose depth is what the frame notes. */
  datatype Frame = Frame(back: int, base: nat, size: nat, under: Stack)

  /** What calls need beside the state: locals below the current base, the first free slot, the frames. */
  datatype Rest = Rest(lower: map<nat, Value>, top: nat, frames: seq<Frame>)

  datatype Thread = Thread(s: State, rest: Rest)

  /** How a run ends: as one activation ends, or at a call or return. A fast return that takes
      its value from below the operand stack has no defined value. */
  datatype Ending = Stops(o: Outcome, rest: Rest) | BadFunction | TooDeep | BelowStack

  datatype Result = Going(t: Thread) | Ended(e: Ending)

  // ----------------------------------------------------------------- memory

  function Base(frames: seq<Frame>): nat {
    if frames == [] then 0 else frames[|frames| - 1].base
  }

  function Up(base: nat, k: nat): nat {
    base + k
  }

  function Down(base: nat, k: nat): nat {
    if base <= k then k - base else 0
  }

  function At(mem: map<nat, Value>, k: nat): Value
    requires k in mem
  {
    mem[k]
  }

  /** The slots from `base` on, counted from there. */
  function Window(mem: map<nat, Value>, base: nat): map<nat, Value> {
    var slots := set x | x in mem && base <= x :: Down(base, x);
    SlotsMoveDown(mem.Keys, base, slots);
    map k | k in slots :: At(mem, Up(base, k))
  }

  lemma SlotsMoveDown(keys: set<nat>, base: nat, slots: set<nat>)
    requires slots == set x | x in keys && base <= x :: Down(base, x)
    ensures forall k :: k in slots <==> Up(base, k) in keys
  {
    forall k | Up(base, k) in keys ensures k in slots {
      assert Down(base, Up(base, k)) == k;
    }
  }

  function Below(mem: map<nat, Value>, base: nat): map<nat, Value> {
    map k | k in mem && k < base :: mem[k]
  }

  /** Slots counted from `base`, as slots of the whole memory. */
  function Lifted(locals: map<nat, Value>, base: nat): map<nat, Value> {
    var slots := set x | x in locals :: Up(base, x);
    SlotsMoveUp(locals.Keys, base, slots);
    map k | k in slots :: At(locals, Down(base, k))
  }

  lemma SlotsMoveUp(keys: set<nat>, base: nat, slots: set<nat>)
    requires slots == set x | x in keys :: Up(base, x)
    ensures forall k :: k in slots <==> base <= k && Down(base, k) in keys
  {
    forall k: nat | base <= k && Down(base, k) in keys ensures k in slots {
      assert Up(base, Down(base, k)) == k;
    }
  }

  /** The whole memory of locals. */
  function Memory(lower: map<nat, Value>, base: nat, locals: map<nat, Value>): map<nat, Value> {
    Below(lower, base) + Lifted(locals, base)
  }

  function Locals(t: Thread): map<nat, Value> {
    Memory(t.rest.lower, Base(t.rest.frames), t.s.locals)
  }

  // ------------------------------------------------------ calls and returns

  function Dropped(s: Stack, n: nat): Stack {
    if n == 0 || s.Empty? then s else Dropped(s.below, n - 1)
  }

  /** The last argument is on top; argument `i` goes to slot `i`. */
  function Arguments(s: Stack, n: nat): map<nat, Value> {
    if n == 0 || s.Empty? then map[] else Arguments(s.below, n - 1)[n - 1 := s.top]
  }

  /** The new activation starts at the first free slot. */
  function Entered(s: State, rest: Rest, call: Call): Thread
    requires call.Call?
  {
    var under := Dropped(s.stack, call.argc);
    var mem := Memory(rest.lower, Base(rest.frames), s.locals);
    Thread(s.(pc := call.entry, stack := under, locals := Window(mem, rest.top) + Arguments(s.stack, call.argc)),
           Rest(Below(mem, rest.top), rest.top + call.frame,
                rest.frames + [Frame(call.back, rest.top, call.frame, under)]))
  }

  function Enter(s: State, rest: Rest, call: Call): Result {
    match call
    case NoCall => Ended(Stops(Wild, rest))
    case BadIndex => Ended(BadFunction)
    case Call(_, argc, _, _) =>
      if Depth(s.stack) < argc then Ended(Stops(Underflow, rest))
      else if |rest.frames| >= MAX_CALL_DEPTH then Ended(TooDeep)
      else Going(Entered(s, rest, call))
  }

  lemma EnterIs(s: State, rest: Rest, call: Call)
    ensures Enter(s, rest, call).Going? ==> call.Call? && Enter(s, rest, call) == Going(Entered(s, rest, call))
  {
  }

  /** Back in the caller with value `v` on top of the stack it had. */
  function Returned(s: State, rest: Rest, v: Value): Thread
    requires rest.frames != []
  {
    var f, callers := rest.frames[|rest.frames| - 1], rest.frames[..|rest.frames| - 1];
    var mem := Memory(rest.lower, f.base, s.locals);
    Thread(s.(pc := f.back, stack := Push(v, f.under), locals := Window(mem, Base(callers))),
           Rest(Below(mem, Base(callers)), f.base, callers))
  }

  /** The ordinary return looks whether there is a value; the fast one does not. */
  function Leave(s: State, rest: Rest, looks: bool): Result {
    if rest.frames == [] then Ended(Stops(Halted(s), rest))
    else if s.stack.Push? then Going(Returned(s, rest, s.stack.top))
    else if looks then Going(Returned(s, rest, Nil))
    else Ended(BelowStack)
  }

  predicate IsCall(op: int) {
    op == OP_CALL || op == OP_CALL_FAST_0 || op == OP_CALL_FAST_1
  }

  // ---------------------------------------------------------------- machine

  /** Code with its function table and frame sizes; `guarded` as for one activation. */
  datatype Program = Program(code: seq<Byte>, guarded: bool, table: seq<nat>, sizes: seq<nat>)
  {
    /** The run goes on after the outcome `o` of one activation. */
    function Resume(o: Outcome, rest: Rest): Result {
      match o
      case Running(s) => Going(Thread(s, rest))
      case Yield(s, op, _) =>
        if Returns(op) then Leave(s, rest, op == OP_RET)
        else if IsCall(op) && 0 <= s.pc < |code| then Enter(s, rest, Called(code, table, sizes, s.pc))
        else Ended(Stops(o, rest))
      case _ => Ended(Stops(o, rest))
    }

    function Next(t: Thread): Result {
      Resume(Step(code, guarded, t.s), t.rest)
    }

    function Run(t: Thread, n: nat): Result {
      RunOf(Machine(), t, n)
    }

    function Machine(): Thread -> Result {
      (t: Thread) => Next(t)
    }
  }

  // ------------------------------------------------- runs of threads

  /** `n` steps of any machine over threads, or fewer when it ends. */
  function RunOf(step: Thread -> Result, t: Thread, n: nat): Result
    decreases n
  {
    if n == 0 then Going(t)
    else
      match step(t)
      case Going(u) => RunOf(step, u, n - 1)
      case e => e
  }

  function Onward(step: Thread -> Result, r: Result, n: nat): Result {
    match r
    case Going(u) => RunOf(step, u, n)
    case _ => r
  }

  lemma {:induction false} RunAppends(step: Thread -> Result, t: Thread, m: nat, n: nat)
    ensures RunOf(step, t, m + n) == Onward(step, RunOf(step, t, m), n)
    decreases m
  {
    if m > 0 {
      match step(t)
      case Going(u) => RunAppends(step, u, m - 1, n);
      case _ =>
    }
  }

  lemma RunOne(step: Thread -> Result, t: Thread)
    ensures RunOf(step, t, 1) == step(t)
  {
    match step(t)
    case Going(u) => assert RunOf(step, u, 0) == Going(u);
    case _ =>
  }

  lemma {:induction false} EndedStays(step: Thread -> Result, t: Thread, n: nat, m: nat)
    requires n <= m && RunOf(step, t, n).Ended?
    ensures RunOf(step, t, m) == RunOf(step, t, n)
    decreases n
  {
    if n > 0 {
      match step(t)
      case Going(u) => EndedStays(step, u, n - 1, m - 1);
      case _ =>
    }
  }

  lemma RunFrom(p: Program, t: Thread, k: nat, u: Thread, n: nat)
    requires p.Run(t, k) == Going(u)
    ensures p.Run(t, k + n) == p.Run(u, n)
  {
    RunAppends(p.Machine(), t, k, n);
  }

  /** What every step keeps holds in every run. */
  lemma {:induction false} InvariantHolds(step: Thread -> Result, inv: Thread -> bool, t: Thread, n: nat)
    requires forall u: Thread {:trigger inv(u)} :: inv(u) && step(u).Going? ==> inv(step(u).t)
    requires inv(t)
    ensures RunOf(step, t, n).Going? ==> inv(RunOf(step, t, n).t)
    decreases n
  {
    if n > 0 && step(t).Going? {
      InvariantHolds(step, inv, step(t).t, n - 1);
    }
  }

  /** A machine whose steps are the images of the steps of another has the images of its runs. */
  lemma {:induction false} RunsMap(one: Thread -> Result, two: Thread -> Result, f: Thread -> Thread, g: Result -> Result,
                                   good: Thread -> bool, t: Thread, m: nat)
    requires forall u: Thread {:trigger good(u)} :: good(u) ==>
      two(f(u)) == g(one(u)) && (one(u).Going? ==> good(one(u).t))
    requires forall r: Result {:trigger g(r)} :: if r.Going? then g(r) == Going(f(r.t)) else g(r).Ended?
    requires good(t)
    ensures RunOf(two, f(t), m) == g(RunOf(one, t, m))
    ensures RunOf(one, t, m).Going? ==> good(RunOf(one, t, m).t)
    decreases m
  {
    if m == 0 {
      assert g(Going(t)) == Going(f(t));
    } else if one(t).Going? {
      assert g(one(t)) == Going(f(one(t).t));
      RunsMap(one, two, f, g, good, one(t).t, m - 1);
    }
  }

  // ------------------------------ runs that stand for runs of another machine

  /** Ends that only the optimized code knows: a trap of a range loop with step zero, a value
      taken from below the stack, an instruction read from outside the code. */
  predicate Strays(r: Result) {
    r.Ended? && (r.e.BelowStack? || (r.e.Stops? && (r.e.o.ZeroStep? || r.e.o.Wild?)))
  }

  /** Steps of another machine during `m` steps of `ref`, when each is worth `work`. */
  function StepsTaken(ref: Thread -> Result, work: Thread -> nat, t: Thread, m: nat): nat
    decreases m
  {
    if m == 0 then 0
    else
      match ref(t)
      case Going(u) => work(t) + StepsTaken(ref, work, u, m - 1)
      case _ => work(t)
  }

  /** From good threads every step of `ref` is `work` steps of `step`, except that it strays
      exactly in the threads that `trap` names. */
  ghost predicate RefinesThreads(ref: Thread -> Result, step: Thread -> Result, work: Thread -> nat,
                                 good: Thread -> bool, trap: Thread -> bool) {
    forall t: Thread {:trigger good(t)} :: good(t) ==> RefinesAt(ref, step, work, good, trap, t)
  }

  ghost predicate RefinesAt(ref: Thread -> Result, step: Thread -> Result, work: Thread -> nat,
                            good: Thread -> bool, trap: Thread -> bool, t: Thread) {
    && work(t) >= 1
    && (if trap(t) then Strays(ref(t)) else ref(t) == RunOf(step, t, work(t)))
    && (ref(t).Going? ==> good(ref(t).t))
  }

  /** After `n` steps the machine stands in the good thread `u`, where `ref` strays. */
  ghost predicate MeetsThread(step: Thread -> Result, good: Thread -> bool, trap: Thread -> bool,
                              t: Thread, n: nat, u: Thread) {
    RunOf(step, t, n) == Going(u) && good(u) && trap(u)
  }

  /** The run of `ref` is a run of `step`, or that run met a trap and `ref` strayed right there. */
  lemma {:induction false} RefinedThreads(ref: Thread -> Result, step: Thread -> Result, work: Thread -> nat,
                                          good: Thread -> bool, trap: Thread -> bool, t: Thread, m: nat)
    requires RefinesThreads(ref, step, work, good, trap) && good(t)
    ensures var r, n := RunOf(ref, t, m), StepsTaken(ref, work, t, m);
      || (r == RunOf(step, t, n) && (r.Going? ==> n >= m))
      || exists k: nat, u: Thread :: MeetsThread(step, good, trap, t, k, u) && r == ref(u)
    decreases m
  {
    if m > 0 {
      if trap(t) {
        assert MeetsThread(step, good, trap, t, 0, t);
      } else if ref(t).Going? {
        var u := ref(t).t;
        RefinedThreads(ref, step, work, good, trap, u, m - 1);
        RunAppends(step, t, work(t), StepsTaken(ref, work, u, m - 1));
        forall k: nat, v: Thread | MeetsThread(step, good, trap, u, k, v)
          ensures MeetsThread(step, good, trap, t, work(t) + k, v)
        {
          RunAppends(step, t, work(t), k);
        }
      }
    }
  }

  /** No good thread lies strictly inside the steps that one step of `ref` stands for. */
  ghost predicate NoneBetween(step: Thread -> Result, work: Thread -> nat, good: Thread -> bool) {
    forall t: Thread, k: nat {:trigger RunOf(step, t, k)} ::
      good(t) && 0 < k < work(t) && RunOf(step, t, k).Going? ==> !good(RunOf(step, t, k).t)
  }

  /** Conversely, when the run of `step` meets a trap after `n` steps, `ref` has strayed by then. */
  lemma {:induction false} StraysByThen(ref: Thread -> Result, step: Thread -> Result, work: Thread -> nat,
                                        good: Thread -> bool, trap: Thread -> bool, t: Thread, n: nat, u: Thread)
    requires RefinesThreads(ref, step, work, good, trap) && NoneBetween(step, work, good) && good(t)
    requires MeetsThread(step, good, trap, t, n, u)
    ensures Strays(RunOf(ref, t, n + 1))
    decreases n
  {
    if !trap(t) {
      assert n >= work(t);
      RunAppends(step, t, work(t), n - work(t));
      var v := ref(t).t;
      assert MeetsThread(step, good, trap, v, n - work(t), u);
      StraysByThen(ref, step, work, good, trap, v, n - work(t), u);
      EndedStays(ref, v, n - work(t) + 1, n);
    }
  }

  /** A machine that never strays from where an invariant holds that it keeps. */
  lemma {:induction false} NeverStrays(step: Thread -> Result, inv: Thread -> bool, t: Thread, n: nat)
    requires forall u: Thread {:trigger inv(u)} :: inv(u) ==> !Strays(step(u)) && (step(u).Going? ==> inv(step(u).t))
    requires inv(t)
    ensures !Strays(RunOf(step, t, n))
    decreases n
  {
    if n > 0 && step(t).Going? {
      NeverStrays(step, inv, step(t).t, n - 1);
    }
  }

  /** Two machines, the second of which differs in exactly the threads that `differ` names. */
  lemma {:induction false} SameUntil(one: Thread -> Result, two: Thread -> Result, good: Thread -> bool,
                                     differ: Thread -> bool, t: Thread, m: nat)
    requires forall u: Thread {:trigger good(u)} :: good(u) ==>
      (two(u) == one(u) <==> !differ(u)) && (one(u).Going? ==> good(one(u).t))
    requires good(t)
    requires forall i: nat :: i < m && RunOf(one, t, i).Going? ==> !differ(RunOf(one, t, i).t)
    ensures RunOf(two, t, m) == RunOf(one, t, m)
    decreases m
  {
    if m > 0 {
      assert RunOf(one, t, 0) == Going(t);
      if one(t).Going? {
        forall i: nat | i < m - 1 && RunOf(one, one(t).t, i).Going? ensures !differ(RunOf(one, one(t).t, i).t) {
          assert RunOf(one, t, i + 1) == RunOf(one, one(t).t, i);
        }
        SameUntil(one, two, good, differ, one(t).t, m - 1);
      }
    }
  }

  /** Where they differ their runs differ, if they have not differed before. */
  lemma PartOnce(one: Thread -> Result, two: Thread -> Result, t: Thread, i: nat, u: Thread)
    requires RunOf(one, t, i) == Going(u) && two(u) != one(u)
    ensures RunOf(two, t, i) != RunOf(one, t, i) || RunOf(two, t, i + 1) != RunOf(one, t, i + 1)
  {
    RunAppends(one, t, i, 1);
    RunAppends(two, t, i, 1);
    RunOne(one, u);
    RunOne(two, u);
  }

  // ------------------------------------------------ frames do not overlap

  /** Where the frame of the activation with number `i` ends; number -1 is the top level. */
  function EndOf(frames: seq<Frame>, toplevel: nat, i: int): nat
    requires -1 <= i < |frames|
  {
    if i == -1 then toplevel else frames[i].base + frames[i].size
  }

  /** Every frame starts behind the end of its caller's, and the free slots behind the last. */
  ghost predicate Stacked(rest: Rest, toplevel: nat) {
    && (forall i :: 0 <= i < |rest.frames| ==> rest.frames[i].base >= EndOf(rest.frames, toplevel, i - 1))
    && rest.top >= EndOf(rest.frames, toplevel, |rest.frames| - 1)
  }

  lemma EnterStacks(s: State, rest: Rest, call: Call, toplevel: nat)
    requires Stacked(rest, toplevel) && call.Call?
    ensures Stacked(Entered(s, rest, call).rest, toplevel)
  {
    var r := Entered(s, rest, call).rest;
    forall i | 0 <= i < |r.frames| ensures r.frames[i].base >= EndOf(r.frames, toplevel, i - 1) {
      if i < |rest.frames| {
        assert r.frames[i] == rest.frames[i];
      }
    }
  }

  lemma LeaveStacks(s: State, rest: Rest, v: Value, toplevel: nat)
    requires Stacked(rest, toplevel) && rest.frames != []
    ensures Stacked(Returned(s, rest, v).rest, toplevel)
  {
    PopStacks(rest, Returned(s, rest, v).rest, toplevel, |rest.frames| - 1);
  }

  lemma PopStacks(rest: Rest, r: Rest, toplevel: nat, n: nat)
    requires Stacked(rest, toplevel) && n + 1 == |rest.frames|
    requires r.frames == rest.frames[..n] && r.top == rest.frames[n].base
    ensures Stacked(r, toplevel)
  {
    assert rest.frames[n].base >= EndOf(rest.frames, toplevel, n - 1);
    forall i | 0 <= i < n ensures r.frames[i].base >= EndOf(r.frames, toplevel, i - 1) {
      assert rest.frames[i].base >= EndOf(rest.frames, toplevel, i - 1);
    }
  }

  lemma NextStacks(p: Program, t: Thread, toplevel: nat)
    requires Stacked(t.rest, toplevel) && p.Next(t).Going?
    ensures Stacked(p.Next(t).t.rest, toplevel)
  {
    var o := Step(p.code, p.guarded, t.s);
    if o.Yield? {
      if Returns(o.op) {
        LeaveStacks(o.s, t.rest, if o.s.stack.Push? then o.s.stack.top else Nil, toplevel);
      } else {
        EnterStacks(o.s, t.rest, Called(p.code, p.table, p.sizes, o.s.pc), toplevel);
      }
    }
  }

  /** In every run, frames never overlap: the assertion in the call handlers cannot fail. */
  lemma FramesNeverOverlap(p: Program, t: Thread, n: nat, toplevel: nat)
    requires Stacked(t.rest, toplevel) && p.Run(t, n).Going?
    ensures Stacked(p.Run(t, n).t.rest, toplevel)
  {
    var stacked := StackedThreads(toplevel);
    forall u: Thread {:trigger stacked(u)} | stacked(u) && p.Machine()(u).Going?
      ensures stacked(p.Machine()(u).t)
    {
      NextStacks(p, u, toplevel);
    }
    InvariantHolds(p.Machine(), stacked, t, n);
  }

  ghost function StackedThreads(toplevel: nat): Thread -> bool {
    (t: Thread) => Stacked(t.rest, toplevel)
  }

  // -------------------------------------------- callers keep their locals

  lemma WindowHas(mem: map<nat, Value>, base: nat, k: nat)
    ensures k in Window(mem, base) <==> Up(base, k) in mem
    ensures k in Window(mem, base) ==> Window(mem, base)[k] == mem[Up(base, k)]
  {
    SlotsMoveDown(mem.Keys, base, set x | x in mem && base <= x :: Down(base, x));
  }

  lemma LiftedHas(locals: map<nat, Value>, base: nat, k: nat)
    ensures k in Lifted(locals, base) <==> base <= k && Down(base, k) in locals
    ensures k in Lifted(locals, base) ==> Lifted(locals, base)[k] == locals[Down(base, k)]
  {
    SlotsMoveUp(locals.Keys, base, set x | x in locals :: Up(base, x));
  }

  lemma SlotKept(mem: map<nat, Value>, base: nat, k: nat)
    ensures var r := Memory(Below(mem, base), base, Window(mem, base));
      (k in r <==> k in mem) && (k in mem ==> r[k] == mem[k])
  {
    LiftedHas(Window(mem, base), base, k);
    if base <= k {
      WindowHas(mem, base, Down(base, k));
    }
  }

  /** Splitting the memory at any place and putting it together again gives it back. */
  lemma MemorySplits(mem: map<nat, Value>, base: nat)
    ensures Memory(Below(mem, base), base, Window(mem, base)) == mem
  {
    forall k: nat {
      SlotKept(mem, base, k);
    }
  }

  /** The first `j` frames are the same in both threads, and so are all locals below the last of them. */
  ghost predicate CallersKept(t: Thread, u: Thread, j: nat) {
    && j <= |t.rest.frames| && j <= |u.rest.frames| && t.rest.frames[..j] == u.rest.frames[..j]
    && Below(Locals(t), Base(t.rest.frames[..j])) == Below(Locals(u), Base(u.rest.frames[..j]))
  }

  lemma OwnSlotsOnly(lower: map<nat, Value>, base: nat, locals: map<nat, Value>, locals': map<nat, Value>, b: nat)
    requires b <= base
    ensures Below(Memory(lower, base, locals), b) == Below(Memory(lower, base, locals'), b)
  {
  }

  lemma BelowSplit(mem: map<nat, Value>, base: nat, locals: map<nat, Value>, b: nat)
    requires b <= base
    ensures Below(Memory(Below(mem, base), base, locals), b) == Below(mem, b)
  {
  }

  lemma {:induction false} BasesAscend(rest: Rest, toplevel: nat, j: nat, n: nat)
    requires Stacked(rest, toplevel) && j <= n <= |rest.frames|
    ensures Base(rest.frames[..j]) <= Base(rest.frames[..n])
    ensures Base(rest.frames) <= rest.top
    decreases n - j
  {
    if j < n {
      assert rest.frames[n - 1].base >= EndOf(rest.frames, toplevel, n - 2);
      BasesAscend(rest, toplevel, j, n - 1);
    }
  }

  lemma EnterKeepsCallers(s: State, rest: Rest, call: Call, toplevel: nat, j: nat)
    requires Stacked(rest, toplevel) && call.Call? && j <= |rest.frames|
    ensures CallersKept(Thread(s, rest), Entered(s, rest, call), j)
  {
    var u := Entered(s, rest, call);
    assert u.rest.frames[..j] == rest.frames[..j];
    assert rest.frames[..|rest.frames|] == rest.frames;
    BasesAscend(rest, toplevel, j, |rest.frames|);
    BelowSplit(Locals(Thread(s, rest)), rest.top, u.s.locals, Base(rest.frames[..j]));
  }

  lemma LeaveKeepsCallers(s: State, rest: Rest, v: Value, j: nat)
    requires rest.frames != [] && j < |rest.frames|
    ensures CallersKept(Thread(s, rest), Returned(s, rest, v), j)
  {
    var u := Returned(s, rest, v);
    assert u.rest.frames[..j] == rest.frames[..j];
    LeaveKeepsMemory(s, rest, v);
  }

  lemma LeaveKeepsMemory(s: State, rest: Rest, v: Value)
    requires rest.frames != []
    ensures Locals(Returned(s, rest, v)) == Locals(Thread(s, rest))
  {
    var mem := Memory(rest.lower, rest.frames[|rest.frames| - 1].base, s.locals);
    MemorySplits(mem, Base(rest.frames[..|rest.frames| - 1]));
  }

  lemma NextKeepsCallers(p: Program, t: Thread, toplevel: nat, j: nat)
    requires Stacked(t.rest, toplevel) && j <= |t.rest.frames|
    requires p.Next(t).Going? && j <= |p.Next(t).t.rest.frames|
    ensures CallersKept(t, p.Next(t).t, j)
  {
    var o := Step(p.code, p.guarded, t.s);
    if o.Running? {
      assert t.rest.frames[..|t.rest.frames|] == t.rest.frames;
      BasesAscend(t.rest, toplevel, j, |t.rest.frames|);
      OwnSlotsOnly(t.rest.lower, Base(t.rest.frames), t.s.locals, o.s.locals, Base(t.rest.frames[..j]));
    } else {
      YieldsInPlace(p, t.s);
      if Returns(o.op) {
        LeaveKeepsCallers(t.s, t.rest, if t.s.stack.Push? then t.s.stack.top else Nil, j);
      } else {
        EnterKeepsCallers(t.s, t.rest, Called(p.code, p.table, p.sizes, t.s.pc), toplevel, j);
      }
    }
  }

  lemma YieldsInPlace(p: Program, s: State)
    ensures var o := Step(p.code, p.guarded, s); o.Yield? ==> o.s == s
  {
  }

  /** While an activation is pending, nothing that it has called, directly or not, changes its
      locals, its callers' locals, or where they return to. */
  lemma {:induction false} CallersKeepLocals(p: Program, t: Thread, n: nat, toplevel: nat, j: nat)
    requires Stacked(t.rest, toplevel) && p.Run(t, n).Going?
    requires forall i: nat :: i <= n && p.Run(t, i).Going? ==> j <= |p.Run(t, i).t.rest.frames|
    ensures CallersKept(t, p.Run(t, n).t, j)
    decreases n
  {
    assert p.Run(t, 0) == Going(t);
    if n > 0 {
      var u := p.Machine()(t).t;
      assert p.Run(t, 1) == Going(u) by {
        RunOne(p.Machine(), t);
      }
      forall i: nat | i <= n - 1 && p.Run(u, i).Going? ensures j <= |p.Run(u, i).t.rest.frames| {
        assert p.Run(t, i + 1) == p.Run(u, i);
      }
      NextKeepsCallers(p, t, toplevel, j);
      NextStacks(p, t, toplevel);
      CallersKeepLocals(p, u, n - 1, toplevel, j);
    }
  }
}
