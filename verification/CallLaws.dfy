/**
 What calls and returns do, in terms of the values pushed: arguments arrive in order, and a
 call that comes back is one operation that replaces its arguments by the result.
 */
module CallLaws {
  import opened Bytes
  import opened Vm
  import opened FastCalls
  import opened Calls

  /** The values pushed one after the other onto `under`. */
  function PushAll(under: Stack, vs: seq<Value>): (s: Stack)
    decreases |vs|
  {
    if vs == [] then under else Push(vs[|vs| - 1], PushAll(under, vs[..|vs| - 1]))
  }

  lemma {:induction false} ArgumentsOf(under: Stack, vs: seq<Value>)
    ensures Depth(PushAll(under, vs)) == Depth(under) + |vs| && Dropped(PushAll(under, vs), |vs|) == under
    ensures forall k: nat {:trigger k in Arguments(PushAll(under, vs), |vs|)} ::
      k in Arguments(PushAll(under, vs), |vs|) <==> k < |vs|
    ensures forall k: nat :: k < |vs| ==> Arguments(PushAll(under, vs), |vs|)[k] == vs[k]
    decreases |vs|
  {
    if vs != [] {
      ArgumentsOf(under, vs[..|vs| - 1]);
    }
  }

  // ---------------------------------------------------------------- operands

  /** The frame of a callee: as large as declared, 32 slots when nothing is, and with room for the
      arguments and eight more; and no larger. */
  lemma FrameSizeIs(sizes: seq<nat>, fn: nat, argc: nat)
    ensures var frame := FrameSize(sizes, fn, argc);
      && frame >= argc + 8 && (fn < |sizes| ==> frame >= sizes[fn])
      && (fn >= |sizes| || sizes[fn] == 0 ==> frame >= 32)
      && (frame == argc + 8 || (fn < |sizes| && frame == sizes[fn] > 0) || (frame == 32 && (fn >= |sizes| || sizes[fn] == 0)))
  {
  }

  /** What a call instruction says: an ordinary one the number of a function, whose entry and
      frame are looked up, and a fast one both of them; the return is behind it. */
  lemma CallOperands(code: seq<Byte>, table: seq<nat>, sizes: seq<nat>, ip: nat)
    requires ip + 4 <= |code|
    ensures var call := Called(code, table, sizes, ip);
      var word: int := (code[ip + 1] as int) + 256 * (code[ip + 2] as int);
      && (code[ip] == OP_CALL && word < |table| ==>
            call == Call(table[word], code[ip + 3], FrameSize(sizes, word, code[ip + 3]), ip + 4))
      && (code[ip] == OP_CALL && table == [] ==>
            call == Call(word, code[ip + 3], FrameSize(sizes, word, code[ip + 3]), ip + 4))
      && (code[ip] == OP_CALL && table != [] && word >= |table| ==> call == BadIndex)
      && (code[ip] == OP_CALL_FAST_0 ==> call == Call(word, 0, code[ip + 3], ip + 4))
      && (code[ip] == OP_CALL_FAST_1 ==> call == Call(word, 1, code[ip + 3], ip + 4))
  {
  }

  // ------------------------------------------------------------------- enter

  lemma MemoryHas(lower: map<nat, Value>, base: nat, locals: map<nat, Value>, k: nat)
    ensures Get(Memory(lower, base, locals), k) == if k < base then Get(lower, k) else Get(locals, k - base)
  {
    LiftedHas(locals, base, k);
  }

  lemma BelowKept(lower: map<nat, Value>, base: nat, locals: map<nat, Value>)
    ensures Below(Memory(Below(lower, base), base, locals), base) == Below(lower, base)
  {
  }

  /** Argument number `i`, counted in the order of pushing, is in slot `i` of the new activation;
      every slot above is what the memory held; nothing below has changed; the return address, the
      operand stack without the arguments and the place of the frame are noted. */
  lemma CallPassesArguments(s: State, rest: Rest, call: Call, under: Stack, vs: seq<Value>)
    requires call.Call? && call.argc == |vs| && s.stack == PushAll(under, vs)
    ensures Enter(s, rest, call).Going? <==> |rest.frames| < 2048
    ensures |rest.frames| < 2048 ==>
      var u, mem := Enter(s, rest, call).t, Locals(Thread(s, rest));
      && (forall i: nat {:trigger Get(u.s.locals, i)} ::
            Get(u.s.locals, i) == if i < |vs| then vs[i] else Get(mem, rest.top + i))
      && Below(Locals(u), rest.top) == Below(mem, rest.top)
      && u.s == s.(pc := call.entry, stack := under, locals := u.s.locals)
      && u.rest.frames == rest.frames + [Frame(call.back, rest.top, call.frame, under)]
      && u.rest.top == rest.top + call.frame
  {
    ArgumentsOf(under, vs);
    if |rest.frames| < 2048 {
      EnterIs(s, rest, call);
      EnteredHas(s, rest, call, under, vs, Entered(s, rest, call));
    }
  }

  lemma EnteredHas(s: State, rest: Rest, call: Call, under: Stack, vs: seq<Value>, u: Thread)
    requires call.Call? && call.argc == |vs| && s.stack == PushAll(under, vs) && u == Entered(s, rest, call)
    ensures forall i: nat {:trigger Get(u.s.locals, i)} ::
      Get(u.s.locals, i) == if i < |vs| then vs[i] else Get(Locals(Thread(s, rest)), rest.top + i)
    ensures Below(Locals(u), rest.top) == Below(Locals(Thread(s, rest)), rest.top)
    ensures u.s == s.(pc := call.entry, stack := under, locals := u.s.locals)
    ensures u.rest.frames == rest.frames + [Frame(call.back, rest.top, call.frame, under)]
    ensures u.rest.top == rest.top + call.frame
  {
    ArgumentsOf(under, vs);
    EnteredSlots(s, rest, call, vs, u);
    BelowKept(Locals(Thread(s, rest)), rest.top, u.s.locals);
  }

  lemma EnteredSlots(s: State, rest: Rest, call: Call, vs: seq<Value>, u: Thread)
    requires call.Call? && call.argc == |vs| && u == Entered(s, rest, call)
    requires forall k: nat {:trigger k in Arguments(s.stack, |vs|)} :: k in Arguments(s.stack, |vs|) <==> k < |vs|
    requires forall k: nat :: k < |vs| ==> Arguments(s.stack, |vs|)[k] == vs[k]
    ensures forall i: nat {:trigger Get(u.s.locals, i)} ::
      Get(u.s.locals, i) == if i < |vs| then vs[i] else Get(Locals(Thread(s, rest)), rest.top + i)
  {
    var mem := Locals(Thread(s, rest));
    forall i: nat {:trigger Get(u.s.locals, i)}
      ensures Get(u.s.locals, i) == if i < |vs| then vs[i] else Get(mem, rest.top + i)
    {
      SlotOfCallee(mem, rest.top, Arguments(s.stack, |vs|), vs, i);
    }
  }

  lemma SlotOfCallee(mem: map<nat, Value>, top: nat, arguments: map<nat, Value>, vs: seq<Value>, i: nat)
    requires i in arguments <==> i < |vs|
    requires i < |vs| ==> arguments[i] == vs[i]
    ensures Get(Window(mem, top) + arguments, i) == if i < |vs| then vs[i] else Get(mem, top + i)
  {
    WindowHas(mem, top, i);
  }

  /** A call with fewer values than arguments ends the run. */
  lemma ShortCallEnds(s: State, rest: Rest, call: Call)
    requires call.Call?
    ensures Depth(s.stack) < call.argc <==> Enter(s, rest, call) == Ended(Stops(Underflow, rest))
  {
  }

  // --------------------------------------------------------- there and back

  /** At `t` a call of `vs`, pushed onto `under`, is about to be executed; it enters `u`. */
  ghost predicate CallsWith(p: Program, t: Thread, u: Thread, under: Stack, vs: seq<Value>) {
    && 0 <= t.s.pc && t.s.pc + 4 <= |p.code| && IsCall(p.code[t.s.pc])
    && t.s.stack == PushAll(under, vs) && p.Next(t) == Going(u)
    && var call := Called(p.code, p.table, p.sizes, t.s.pc); call.Call? && call.argc == |vs|
  }

  lemma NextEnters(p: Program, t: Thread)
    requires 0 <= t.s.pc && t.s.pc + 4 <= |p.code| && IsCall(p.code[t.s.pc])
    ensures p.Next(t) == Enter(t.s, t.rest, Called(p.code, p.table, p.sizes, t.s.pc))
  {
  }

  lemma NextLoads(p: Program, t: Thread)
    requires 0 <= t.s.pc && t.s.pc + 3 <= |p.code| && p.code[t.s.pc] == OP_LOAD_LOCAL
    ensures p.Next(t) == Going(t.(s := t.s.(pc := t.s.pc + 3,
              stack := Push(Get(t.s.locals, Slot(p.code, t.s.pc + 1)), t.s.stack))))
  {
  }

  /** The first instruction of the callee, if it loads slot `i`, loads the `i`-th argument. */
  lemma ArgumentIsLoaded(p: Program, t: Thread, u: Thread, under: Stack, vs: seq<Value>, i: nat, two: nat)
    requires CallsWith(p, t, u, under, vs) && i < |vs| && two == 2
    requires var entry := Called(p.code, p.table, p.sizes, t.s.pc).entry;
      entry + 3 <= |p.code| && p.code[entry] == OP_LOAD_LOCAL && Slot(p.code, entry + 1) == i
    ensures var r := p.Run(t, two); r.Going? && r.t.s.stack == Push(vs[i], under)
  {
    ArgumentArrives(p, t, u, under, vs, i);
    NextLoads(p, u);
    TwoSteps(p, t, u, u.(s := u.s.(pc := u.s.pc + 3, stack := Push(vs[i], under))), two);
  }

  lemma ArgumentArrives(p: Program, t: Thread, u: Thread, under: Stack, vs: seq<Value>, i: nat)
    requires CallsWith(p, t, u, under, vs) && i < |vs|
    ensures Get(u.s.locals, i) == vs[i] && u.s.stack == under
    ensures u.s.pc == Called(p.code, p.table, p.sizes, t.s.pc).entry
  {
    NextEnters(p, t);
    CallPassesArguments(t.s, t.rest, Called(p.code, p.table, p.sizes, t.s.pc), under, vs);
  }

  lemma TwoSteps(p: Program, t: Thread, u: Thread, v: Thread, two: nat)
    requires p.Next(t) == Going(u) && p.Next(u) == Going(v) && two == 2
    ensures p.Run(t, two) == Going(v)
  {
    assert p.Machine()(t) == Going(u);
    assert p.Machine()(u) == Going(v);
    RunOne(p.Machine(), u);
    assert RunOf(p.Machine(), t, two) == RunOf(p.Machine(), u, 1);
  }

  lemma NextLeaves(p: Program, t: Thread)
    requires 0 <= t.s.pc < |p.code| && Returns(p.code[t.s.pc])
    ensures p.Next(t) == Leave(t.s, t.rest, p.code[t.s.pc] == OP_RET)
  {
  }

  /** After `n` steps from `u` the activation that began at `u` is about to return `v`. */
  ghost predicate ReturnsWith(p: Program, u: Thread, n: nat, w: Thread, v: Value) {
    && p.Run(u, n) == Going(w) && |w.rest.frames| == |u.rest.frames|
    && (forall i: nat :: i <= n && p.Run(u, i).Going? ==> |u.rest.frames| <= |p.Run(u, i).t.rest.frames|)
    && 0 <= w.s.pc < |p.code| && Returns(p.code[w.s.pc]) && w.s.stack.Push? && w.s.stack.top == v
  }

  /** A call is one operation: when its activation, whatever that calls in turn, returns `v`, the
      caller goes on behind the call with `v` in place of the arguments, in its own frame, with
      the same free slots, every local of its own and of its callers unchanged. */
  lemma CallIsOneOperation(p: Program, t: Thread, u: Thread, under: Stack, vs: seq<Value>, n: nat, w: Thread, v: Value,
                           toplevel: nat)
    requires Stacked(t.rest, toplevel) && CallsWith(p, t, u, under, vs) && ReturnsWith(p, u, n, w, v)
    ensures p.Next(w).Going?
    ensures var r := p.Next(w).t;
      && r.s == w.s.(pc := t.s.pc + 4, stack := Push(v, under), locals := r.s.locals)
      && r.rest.frames == t.rest.frames && r.rest.top == t.rest.top
      && forall k: nat {:trigger Get(Locals(r), k)} :: k < t.rest.top ==> Get(Locals(r), k) == Get(Locals(t), k)
  {
    var call := Called(p.code, p.table, p.sizes, t.s.pc);
    CallOperands(p.code, p.table, p.sizes, t.s.pc);
    NextEnters(p, t);
    CallPassesArguments(t.s, t.rest, call, under, vs);
    NextStacks(p, t, toplevel);
    CallersKeepLocals(p, u, n, toplevel, |u.rest.frames|);
    NextLeaves(p, w);
    ComesBack(t, u, w, Frame(call.back, t.rest.top, call.frame, under), v);
  }

  lemma ComesBack(t: Thread, u: Thread, w: Thread, f: Frame, v: Value)
    requires u.rest.frames == t.rest.frames + [f] && |w.rest.frames| == |u.rest.frames| && f.base == t.rest.top
    requires CallersKept(u, w, |u.rest.frames|) && Below(Locals(u), t.rest.top) == Below(Locals(t), t.rest.top)
    requires w.s.stack.Push? && w.s.stack.top == v
    ensures forall looks: bool :: Leave(w.s, w.rest, looks).Going?
    ensures forall looks: bool :: var r := Leave(w.s, w.rest, looks).t;
      && r.s == w.s.(pc := f.back, stack := Push(v, f.under), locals := r.s.locals)
      && r.rest.frames == t.rest.frames && r.rest.top == t.rest.top
      && forall k: nat {:trigger Get(Locals(r), k)} :: k < t.rest.top ==> Get(Locals(r), k) == Get(Locals(t), k)
  {
    var n := |t.rest.frames|;
    assert u.rest.frames[..n + 1] == u.rest.frames && w.rest.frames[..n + 1] == w.rest.frames;
    assert w.rest.frames[n] == f && w.rest.frames[..n] == t.rest.frames;
    LeaveKeepsMemory(w.s, w.rest, v);
    var r := Returned(w.s, w.rest, v);
    forall k: nat {:trigger Get(Locals(r), k)} | k < t.rest.top ensures Get(Locals(r), k) == Get(Locals(t), k) {
      BelowGet(Locals(r), Locals(u), t.rest.top, k);
      BelowGet(Locals(u), Locals(t), t.rest.top, k);
    }
  }

  lemma BelowGet(m: map<nat, Value>, n: map<nat, Value>, top: nat, k: nat)
    requires Below(m, top) == Below(n, top) && k < top
    ensures Get(m, k) == Get(n, k)
  {
    assert k in Below(m, top) <==> k in m;
    assert k in Below(n, top) <==> k in n;
  }

  /** Slot `k` of the running activation is slot `base + k` of the memory. */
  lemma OwnLocals(t: Thread, k: nat)
    ensures Get(Locals(t), Base(t.rest.frames) + k) == Get(t.s.locals, k)
  {
    MemoryHas(t.rest.lower, Base(t.rest.frames), t.s.locals, Base(t.rest.frames) + k);
  }

  // ------------------------------------------------------------------ returns

  /** A return of the outermost activation halts; without a value on the operand stack the ordinary
      return gives nil, and the fast one has no value. */
  lemma ReturnIs(p: Program, t: Thread)
    requires 0 <= t.s.pc < |p.code| && Returns(p.code[t.s.pc])
    ensures t.rest.frames == [] ==> p.Next(t) == Ended(Stops(Halted(t.s), t.rest))
    ensures t.rest.frames != [] && t.s.stack.Empty? ==>
      if p.code[t.s.pc] == OP_RET then p.Next(t).Going? && p.Next(t).t.s.stack.Push? && p.Next(t).t.s.stack.top == Nil
      else p.Next(t) == Ended(BelowStack)
  {
    NextLeaves(p, t);
  }
}
