/**
 Small chunks on which the optimizer does not keep the meaning, each of them sound: the
 conditions of the theorems are met, and exactly the named exception occurs.
 */
module Witnesses {
  import opened Bytes
  import opened Vm
  import opened Optimizer
  import opened Passes
  import opened Relocation
  import opened BlockSemantics
  import opened Simulation
  import opened Emitter
  import opened Fusion
  import opened Frames
  import opened FastCalls
  import opened Calls
  import opened CallRuns
  import opened Pipeline
  import opened Heights

  lemma NoTargetHere(c: seq<Byte>, ip: nat, next: nat)
    requires ip < |c| && next == ip + CanonLen(c[ip]) && DirectTargets(c, ip) == []
    ensures TargetsFrom(c, ip) == TargetsFrom(c, next)
  {
  }

  lemma WholeHere(c: seq<Byte>, ip: nat, next: nat)
    requires ip < |c| && !SuperOp(c[ip]) && next == ip + CanonLen(c[ip]) <= |c| && Whole(c, next)
    ensures Whole(c, ip)
  {
  }

  // -------------------------------------------------------- a fused increment

  /** LOAD 0; PUSH_INT 1; ADD; STORE 0; POP or NOP; HALT */
  predicate IncrementCode(c: seq<Byte>) {
    |c| == 18 && IncrementPattern(c, 0) && Slot(c, 1) == 0 && I64(c, 4) == 1 && c[16] in {OP_POP, OP_NOP} && c[17] == OP_HALT
  }

  /** These eighteen bytes are such a chunk. */
  lemma IncrementIsEmitted(c: seq<Byte>)
    requires c == [OP_LOAD_LOCAL, 0, 0, OP_PUSH_INT, 1, 0, 0, 0, 0, 0, 0, 0, OP_ADD, OP_STORE_LOCAL, 0, 0, OP_POP, OP_HALT]
    ensures IncrementCode(c)
  {
    var b := c[4..12];
    assert b[0] == 1;
    ZeroBytes(b[1..]);
  }

  /** That chunk with whatever entry tables, optimized with the local-slot forms enabled. */
  predicate Incremented(x: Compiled) {
    && IncrementCode(x.c.code) && x.f.locals
    && x.lay == Layout([0, 16, 17, 18], [0, 5, 6, 7])
    && x.pcs == seq(16, _ => 0) + [5, 6, 7]
    && x.body == [OP_INCR_LOCAL_IMM, 0, 0, 1, 0, x.c.code[16], OP_HALT]
  }

  lemma IncrementKinds(a: Input)
    requires IncrementCode(a.c) && a.f.locals
    ensures a.KindAt(0) == Increment && a.KindAt(16) == Copy && a.KindAt(17) == Copy
    ensures a.BlockAt(0) && a.BlockAt(16) && a.BlockAt(17)
  {
    FirstKind(a, 0);
    PlainKind(a, 16);
    PlainKind(a, 17);
  }

  lemma FirstKind(a: Input, ip: nat)
    requires a.f.locals && IncrementPattern(a.c, ip)
    requires !LoopPattern(a.c, ip)
    ensures a.KindAt(ip) == Increment && a.BlockAt(ip)
  {
  }

  lemma PlainKind(a: Input, ip: nat)
    requires ip < |a.c| && a.c[ip] != OP_LOAD_LOCAL && a.c[ip] != OP_STORE_LOCAL && ip + CanonLen(a.c[ip]) <= |a.c|
    ensures a.KindAt(ip) == Copy && a.BlockAt(ip)
  {
  }

  lemma IncrementTargets(c: seq<Byte>)
    requires IncrementCode(c)
    ensures Whole(c, 0) && TargetsFrom(c, 0) == {}
  {
    assert TargetsFrom(c, 18) == {};
    NoTargetHere(c, 17, 18);
    NoTargetHere(c, 16, 17);
    NoTargetHere(c, 13, 16);
    NoTargetHere(c, 12, 13);
    NoTargetHere(c, 3, 12);
    NoTargetHere(c, 0, 3);
    WholeHere(c, 17, 18);
    WholeHere(c, 16, 17);
    WholeHere(c, 13, 16);
    WholeHere(c, 12, 13);
    WholeHere(c, 3, 12);
    WholeHere(c, 0, 3);
  }

  lemma IncrementBytes(c: seq<Byte>, ip: nat)
    requires IncrementPattern(c, ip) && Slot(c, ip + 1) == 0 && I64(c, ip + 4) == 1
    ensures Fits(c, ip, Increment) && Arms(c, ip, Increment) == []
    ensures Emit(c, ip, Increment, []) == [OP_INCR_LOCAL_IMM, 0, 0, 1, 0]
  {
  }

  lemma IncrementDone(x: Compiled)
    requires Incremented(x)
    ensures Adjacent(x.In(), x.lay, 0) && MappedBlock(x.lay, x.pcs, 0) && BlockDone(x.In(), x.lay, x.body, x.pcs, 0)
  {
    IncrementKinds(x.In());
    IncrementPlaced(x);
  }

  lemma IncrementPlaced(x: Compiled)
    requires |x.lay.starts| == 4 && |x.lay.outs| == 4 && |x.pcs| == 19 && |x.body| == 7
    requires x.lay.starts[0] == 0 && x.lay.starts[1] == 16 && x.lay.outs[0] == 0 && x.lay.outs[1] == 5
    requires x.body[..5] == [OP_INCR_LOCAL_IMM, 0, 0, 1, 0] && forall k :: 0 <= k < 16 ==> x.pcs[k] == 0
    requires x.c.code != [] && x.In().KindAt(0) == Increment
    requires IncrementPattern(x.c.code, 0) && Slot(x.c.code, 1) == 0 && I64(x.c.code, 4) == 1
    ensures Adjacent(x.In(), x.lay, 0) && MappedBlock(x.lay, x.pcs, 0) && BlockDone(x.In(), x.lay, x.body, x.pcs, 0)
  {
    IncrementBytes(x.c.code, 0);
    var e := x.In().Block(0, []);
    assert RelOf(x.In().ArmsAt(0), 0, x.pcs, |x.body|) == [];
    forall q | 0 <= q < 5 ensures x.body[q] == e[q] {
      assert x.body[q] == x.body[..5][q];
    }
  }

  /** An instruction of one byte copied as it is. */
  lemma CopyDone(x: Compiled, i: nat)
    requires i + 1 < |x.lay.starts| && i + 1 < |x.lay.outs|
    requires var ip := x.lay.starts[i];
      && ip < |x.c.code| && x.In().KindAt(ip) == Copy && CanonLen(x.c.code[ip]) == 1 && Arms(x.c.code, ip, Copy) == []
      && x.lay.starts[i + 1] == ip + 1 < |x.pcs| && x.lay.outs[i + 1] == x.lay.outs[i] + 1 <= |x.body|
      && x.pcs[ip] == x.lay.outs[i] && x.body[x.lay.outs[i]] == x.c.code[ip]
    ensures Adjacent(x.In(), x.lay, i) && MappedBlock(x.lay, x.pcs, i) && BlockDone(x.In(), x.lay, x.body, x.pcs, i)
  {
    var ip := x.lay.starts[i];
    assert RelOf(x.In().ArmsAt(ip), x.lay.outs[i], x.pcs, |x.body|) == [];
    assert x.In().Block(ip, []) == [x.c.code[ip]];
  }

  lemma IncrementTranslated(x: Compiled)
    requires Incremented(x)
    ensures Translated(x.In(), x.lay, x.pcs, x.body)
  {
    IncrementKinds(x.In());
    IncrementDone(x);
    CopyDone(x, 1);
    CopyDone(x, 2);
    ThreeBlocks(x);
  }

  lemma ThreeBlocks(x: Compiled)
    requires |x.lay.starts| == |x.lay.outs| == 4 && x.lay.starts[0] == 0 && x.lay.outs[0] == 0
    requires x.lay.starts[3] == |x.c.code| && x.lay.outs[3] == |x.body|
    requires |x.pcs| == |x.c.code| + 1 && x.pcs[|x.c.code|] == |x.body|
    requires forall i: nat {:trigger Adjacent(x.In(), x.lay, i)} :: i == 0 || i == 1 || i == 2 ==>
      Adjacent(x.In(), x.lay, i) && MappedBlock(x.lay, x.pcs, i) && BlockDone(x.In(), x.lay, x.body, x.pcs, i)
    ensures Translated(x.In(), x.lay, x.pcs, x.body)
  {
    forall i: nat | i < 3 ensures Adjacent(x.In(), x.lay, i) && MappedBlock(x.lay, x.pcs, i) {
      assert i == 0 || i == 1 || i == 2;
    }
    forall i: nat {:trigger BlockDone(x.In(), x.lay, x.body, x.pcs, i)} | i < 3
      ensures BlockDone(x.In(), x.lay, x.body, x.pcs, i)
    {
      assert Adjacent(x.In(), x.lay, i);
    }
  }

  lemma IncrementIsSound(x: Compiled)
    requires Incremented(x)
    ensures x.Sound()
  {
    IncrementTranslated(x);
    IncrementTargets(x.c.code);
    IncrementKinds(x.In());
    forall i: nat | i < 3 ensures x.In().KindAt(x.lay.starts[i]) != LoopHeader {
      assert i == 0 || i == 1 || i == 2;
    }
  }

  /** The canonical machine pops the value and halts; the optimized one has nothing to pop. */
  lemma IncrementUnderflows(x: Compiled, s: State)
    requires Incremented(x) && x.c.code[16] == OP_POP && s.pc == 0 && s.stack == Empty
    ensures x.Sound() && x.Good(s)
    ensures
      && Run(x.c.code, true, s, 6).Halted?
      && Run(Sealed(x.body), false, x.Map().State(s), 3) == Underflow
  {
    IncrementIsSound(x);
    IncrementKinds(x.In());
    assert Adjacent(x.In(), x.lay, 0);
    CanonicalHalts(x.c.code, s, 4);
    OptimizedUnderflows(x, s);
  }

  /** POP; HALT with something on the stack. */
  lemma PopHalts(c: seq<Byte>, t: State, n: nat)
    requires 0 <= t.pc && t.pc + 2 <= |c| && c[t.pc] == OP_POP && c[t.pc + 1] == OP_HALT && t.stack.Push? && n == 2
    ensures Run(c, true, t, n) == Halted(t.(pc := t.pc + 1, stack := t.stack.below))
  {
    var u := t.(pc := t.pc + 1, stack := t.stack.below);
    RunPop(c, t);
    OneStep(c, u);
    IterateAppends(Machine(c, true), t, 1, 1);
  }

  lemma IncrementedState(c: seq<Byte>, s: State, n: nat) returns (t: State)
    requires 0 <= s.pc && IncrementPattern(c, s.pc) && n == 4
    ensures Reaches(c, s, n, t) && t.pc == s.pc + 16 && t.stack.Push?
  {
    RunIncrement(c, s);
    t := Run(c, true, s, 4).s;
  }

  lemma CanonicalHalts(c: seq<Byte>, s: State, n: nat)
    requires IncrementCode(c) && c[16] == OP_POP && s.pc == 0 && n == 4
    ensures Run(c, true, s, n + 2).Halted?
  {
    var t := IncrementedState(c, s, n);
    PopHalts(c, t, 2);
    RunOn(c, s, t, n, 2);
  }

  lemma OptimizedUnderflows(x: Compiled, s: State)
    requires Incremented(x) && x.c.code[16] == OP_POP && s.pc == 0 && s.stack == Empty
    ensures Run(Sealed(x.body), false, x.Map().State(s), 3) == Underflow
  {
    var code := Sealed(x.body);
    var step := Machine(code, false);
    var t := x.Map().State(s);
    assert t.pc == 0 && t.stack == Empty;
    assert code[0] == OP_INCR_LOCAL_IMM && code[5] == OP_POP;
    var u := step(t).s;
    assert step(t) == Running(u) && u.pc == 5 && u.stack == Empty;
    assert step(u) == Underflow;
    assert Iterate(step, u, 2) == Underflow;
  }

  // ---------------------------------------------- heights around an increment

  /** Of that code with NOP: none at its start, one after LOAD, two after PUSH_INT, one after ADD, and
      none again behind the increment. */
  const INCREMENT_HEIGHTS: seq<nat> := [0, 0, 0, 1, 1, 1, 1, 1, 1, 1, 1, 1, 2, 1, 1, 1, 0, 0, 0]

  lemma IncrementPlaces(c: seq<Byte>, ip: nat)
    requires IncrementCode(c) && Steps(c, 0, ip) && ip < |c|
    ensures ip == 0 || ip == 3 || ip == 12 || ip == 13 || ip == 16 || ip == 17
  {
    assert ip == 0 || Steps(c, 3, ip);
    assert Steps(c, 3, ip) ==> ip == 3 || Steps(c, 12, ip);
    assert Steps(c, 12, ip) ==> ip == 12 || Steps(c, 13, ip);
    assert Steps(c, 13, ip) ==> ip == 13 || Steps(c, 16, ip);
    assert Steps(c, 16, ip) ==> ip == 16 || Steps(c, 17, ip);
    assert Steps(c, 17, ip) ==> ip == 17 || Steps(c, 18, ip);
  }

  lemma IncrementInstrs(c: seq<Byte>, h: seq<nat>, ip: nat)
    requires IncrementCode(c) && c[16] == OP_NOP && h == INCREMENT_HEIGHTS
    requires ip == 0 || ip == 3 || ip == 12 || ip == 13 || ip == 16 || ip == 17
    ensures !SuperOp(c[ip]) && ip + CanonLen(c[ip]) <= |c| && InstrCertified(c, h, ip)
  {
    assert DirectTargets(c, ip) == [];
  }

  /** With NOP behind the increment there is a certificate. */
  lemma IncrementIsCertified(x: Compiled)
    requires Incremented(x) && x.c.code[16] == OP_NOP && x.c.functionTable == []
    ensures x.Sound() && CallsAreSound(x) && Certified(x, INCREMENT_HEIGHTS)
  {
    IncrementIsSound(x);
    IncrementKinds(x.In());
    forall ip: nat | Steps(x.c.code, 0, ip) && ip < |x.c.code|
      ensures !SuperOp(x.c.code[ip]) && ip + CanonLen(x.c.code[ip]) <= |x.c.code|
      ensures InstrCertified(x.c.code, INCREMENT_HEIGHTS, ip) && !FastForm(x.c.code[ip]) && x.c.code[ip] != OP_CALL
    {
      IncrementPlaces(x.c.code, ip);
      IncrementInstrs(x.c.code, INCREMENT_HEIGHTS, ip);
    }
    forall i: nat | i < 3 && x.In().KindAt(x.lay.starts[i]) == Increment ensures i == 0 {
      assert i == 0 || i == 1 || i == 2;
    }
  }

  lemma PopNeedsValue(c: seq<Byte>, h: seq<nat>)
    requires IncrementCode(c) && c[16] == OP_POP && AllCertified(c, h)
    ensures h[16] >= 1
  {
    assert Steps(c, 12, 16);
    assert Steps(c, 3, 16);
    assert Steps(c, 0, 16);
    assert InstrCertified(c, h, 16);
  }

  /** With POP there is none: behind an increment nothing may be claimed, and POP needs a value. */
  lemma IncrementIsNotCertified(x: Compiled, h: seq<nat>, first: nat)
    requires Incremented(x) && x.c.code[16] == OP_POP && first == 0
    ensures !Certified(x, h)
  {
    IncrementKinds(x.In());
    IncrementDone(x);
    if Certified(x, h) {
      NothingBehindIncrement(x, h, first);
      PopNeedsValue(x.c.code, h);
    }
  }

  // ------------------------------------------------- a range loop with step zero

  /** The emitted head of a range loop, step in slot 0, with its exit on the HALT behind it. */
  predicate LoopCode(c: seq<Byte>) {
    |c| == 47 && EmittedHeader(c, 0) && Slot(c, 1) == 0 && Slot(c, 14) == 1 && Slot(c, 17) == 2
    && Offset(c, 44) == 0 && c[46] == OP_HALT
  }

  predicate Looped(x: Compiled) {
    && LoopCode(x.c.code) && x.f.loopFusion
    && x.lay == Layout([0, 46, 47], [0, 9, 10])
    && x.pcs == seq(46, _ => 0) + [9, 10]
    && x.body == [OP_LOOP_RANGE_FAST, 1, 0, 2, 0, 0, 0, 0, 0, OP_HALT]
  }

  lemma HeaderTail(step: nat, v: nat, stop: nat)
    ensures RangeHeader(step, v, stop)[44] == 0 && RangeHeader(step, v, stop)[45] == 0
  {
  }

  lemma FrontOf(c: seq<Byte>, h: seq<Byte>, t: seq<Byte>)
    requires c == h + t && |h| == 46
    ensures c[0..44] == h[..44] && c[44] == h[44] && c[45] == h[45]
  {
  }

  /** What the emitter writes for step slot 0, variable slot 1 and stop slot 2, and a HALT, is such code. */
  lemma LoopIsEmitted(step: nat, v: nat, stop: nat, h: seq<Byte>, c: seq<Byte>)
    requires step == 0 && v == 1 && stop == 2 && h == RangeHeader(step, v, stop) && c == h + [OP_HALT]
    ensures LoopCode(c)
  {
    HeaderTail(step, v, stop);
    FrontOf(c, h, [OP_HALT]);
    FrontIsHeader(c, step, v, stop, h);
  }

  lemma FrontIsHeader(c: seq<Byte>, step: nat, v: nat, stop: nat, h: seq<Byte>)
    requires step < 65536 && v < 65536 && stop < 65536 && 46 <= |c|
    requires h == RangeHeader(step, v, stop) && c[0..44] == h[..44]
    ensures EmittedHeader(c, 0) && Slot(c, 1) == step && Slot(c, 14) == v && Slot(c, 17) == stop
  {
    EmittedHeaderFuses(c, 0, step, v, stop);
  }

  /** One half of the header: LOAD, PUSH_INT, compare; LOAD, LOAD, compare; AND. */
  predicate HalfAt(c: seq<Byte>, ip: nat) {
    && ip + 21 <= |c|
    && c[ip] == OP_LOAD_LOCAL && c[ip + 3] == OP_PUSH_INT && c[ip + 12] in {OP_LT, OP_GT}
    && c[ip + 13] == OP_LOAD_LOCAL && c[ip + 16] == OP_LOAD_LOCAL && c[ip + 19] in {OP_LT, OP_GT}
    && c[ip + 20] == OP_TERNARY_MIN
  }

  lemma HalfHasNoTarget(c: seq<Byte>, ip: nat)
    requires HalfAt(c, ip)
    ensures TargetsFrom(c, ip) == TargetsFrom(c, ip + 21)
  {
    NoTargetHere(c, ip + 20, ip + 21);
    NoTargetHere(c, ip + 19, ip + 20);
    NoTargetHere(c, ip + 16, ip + 19);
    NoTargetHere(c, ip + 13, ip + 16);
    NoTargetHere(c, ip + 12, ip + 13);
    NoTargetHere(c, ip + 3, ip + 12);
    NoTargetHere(c, ip, ip + 3);
  }

  lemma HalfIsWhole(c: seq<Byte>, ip: nat)
    requires HalfAt(c, ip) && Whole(c, ip + 21)
    ensures Whole(c, ip)
  {
    WholeHere(c, ip + 20, ip + 21);
    WholeHere(c, ip + 19, ip + 20);
    WholeHere(c, ip + 16, ip + 19);
    WholeHere(c, ip + 13, ip + 16);
    WholeHere(c, ip + 12, ip + 13);
    WholeHere(c, ip + 3, ip + 12);
    WholeHere(c, ip, ip + 3);
  }

  lemma LoopTargets(c: seq<Byte>)
    requires |c| == 47 && LoopPattern(c, 0) && Offset(c, 44) == 0 && c[46] == OP_HALT
    ensures Whole(c, 0) && TargetsFrom(c, 0) == {46}
  {
    WholeHere(c, 46, 47);
    WholeHere(c, 43, 46);
    WholeHere(c, 42, 43);
    NoTargetHere(c, 46, 47);
    assert DirectTargets(c, 43) == [46];
    assert TargetsFrom(c, 43) == {46};
    NoTargetHere(c, 42, 43);
    HalfHasNoTarget(c, 21);
    HalfHasNoTarget(c, 0);
    HalfIsWhole(c, 21);
    HalfIsWhole(c, 0);
  }

  lemma LoopKinds(a: Input)
    requires a.f.loopFusion && LoopPattern(a.c, 0) && |a.c| == 47 && a.c[46] == OP_HALT
    ensures a.KindAt(0) == LoopHeader && a.BlockAt(0) && a.KindAt(46) == Copy && a.BlockAt(46)
  {
    PlainKind(a, 46);
  }

  lemma LoopBytes(c: seq<Byte>)
    requires LoopCode(c)
    ensures Fits(c, 0, LoopHeader) && Arms(c, 0, LoopHeader) == [Arm(46, 7, 9)]
    ensures Emit(c, 0, LoopHeader, [0]) == [OP_LOOP_RANGE_FAST, 1, 0, 2, 0, 0, 0, 0, 0]
  {
  }

  lemma LoopDone(x: Compiled)
    requires Looped(x)
    ensures Adjacent(x.In(), x.lay, 0) && MappedBlock(x.lay, x.pcs, 0) && BlockDone(x.In(), x.lay, x.body, x.pcs, 0)
  {
    LoopKinds(x.In());
    assert x.In().ArmsAt(0) == [Arm(46, 7, 9)];
    assert RelOf(x.In().ArmsAt(0), 0, x.pcs, |x.body|) == [0];
    LoopBytes(x.c.code);
    assert x.In().Block(0, [0]) == [OP_LOOP_RANGE_FAST, 1, 0, 2, 0, 0, 0, 0, 0];
  }

  lemma LoopTranslated(x: Compiled)
    requires Looped(x)
    ensures Translated(x.In(), x.lay, x.pcs, x.body)
  {
    LoopKinds(x.In());
    LoopDone(x);
    CopyDone(x, 1);
    forall i: nat | i < 2 ensures Adjacent(x.In(), x.lay, i) && MappedBlock(x.lay, x.pcs, i) {
      assert i == 0 || i == 1;
    }
    forall i: nat {:trigger BlockDone(x.In(), x.lay, x.body, x.pcs, i)} | i < 2
      ensures BlockDone(x.In(), x.lay, x.body, x.pcs, i)
    {
      assert i == 0 || i == 1;
    }
  }

  lemma LoopJumpsAreSound(x: Compiled)
    requires Looped(x)
    ensures JumpsAreSound(x.c, x.In(), x.lay) && |x.c.code| !in TargetsFrom(x.c.code, 0)
  {
    LoopTargets(x.c.code);
    LoopSteps(x.c.code, 0);
    forall i: nat | i < 2 ensures !(x.lay.starts[i] < 46 < x.lay.starts[i + 1]) {
      assert i == 0 || i == 1;
    }
  }

  lemma LoopIsSound(x: Compiled)
    requires Looped(x)
    ensures x.Sound() && x.AtBlock(0)
  {
    LoopKinds(x.In());
    LoopTranslated(x);
    LoopJumpsAreSound(x);
    LoopDone(x);
    forall i: nat | i < 2 && x.In().KindAt(x.lay.starts[i]) == LoopHeader ensures i == 0 {
      assert i == 0 || i == 1;
    }
  }

  /** With step zero the canonical machine leaves the loop and halts; the optimized one traps. */
  lemma ZeroStepTraps(x: Compiled, s: State, n: nat)
    requires Looped(x) && s.pc == 0 && AsInt(Get(s.locals, 0)) == 0 && n == 16
    ensures x.Sound() && x.Good(s)
    ensures Run(x.c.code, true, s, n + 1) == Halted(s.(pc := 46))
    ensures Run(Sealed(x.body), false, x.Map().State(s), 1).ZeroStep?
  {
    LoopIsSound(x);
    LoopKinds(x.In());
    HeaderLeaves(x.c.code, s, s.(pc := 46), n);
    LoopHalts(x.c.code, s, s.(pc := 46), n);
    assert ZeroHeader(x, s);
    LoopTraps(x, s);
  }

  /** A header with step zero goes to its exit. */
  lemma HeaderLeaves(c: seq<Byte>, s: State, t: State, n: nat)
    requires 0 <= s.pc && EmittedHeader(c, s.pc) && HeaderStep(c, s.pc, s) == 0 && n == 16
    requires t == s.(pc := s.pc + 46 + Offset(c, s.pc + 44))
    ensures Reaches(c, s, n, t)
  {
    RunHeader(c, s);
  }

  lemma LoopHalts(c: seq<Byte>, s: State, t: State, n: nat)
    requires LoopCode(c) && Reaches(c, s, n, t) && t.pc == 46
    ensures Run(c, true, s, n + 1) == Halted(t)
  {
    OneStep(c, t);
    RunOn(c, s, t, n, 1);
  }

  lemma RunOn(c: seq<Byte>, s: State, t: State, m: nat, n: nat)
    requires Reaches(c, s, m, t)
    ensures Run(c, true, s, m + n) == Run(c, true, t, n)
  {
    IterateAppends(Machine(c, true), s, m, n);
  }

  lemma LoopTraps(x: Compiled, s: State)
    requires x.Sound() && ZeroHeader(x, s)
    ensures Run(Sealed(x.body), false, x.Map().State(s), 1).ZeroStep?
  {
    BlockSimulated(x, s);
    NotABlock(x);
    StepsOnce(Sealed(x.body), x.Map().State(s));
  }

  lemma StepsOnce(code: seq<Byte>, t: State)
    ensures Run(code, false, t, 1) == Step(code, false, t)
  {
    assert Machine(code, false)(t) == Step(code, false, t);
  }

  // --------------------------------------------------- chunks that are copied

  /** Block `i` is one copied instruction that is no jump. */
  ghost predicate CopiesAt(x: Compiled, i: nat) {
    && i + 1 < |x.lay.starts| == |x.lay.outs| && |x.pcs| == |x.c.code| + 1 && x.body == x.c.code
    && var c, ip, next := x.c.code, x.lay.starts[i], x.lay.starts[i + 1];
    && ip < |c| && next == ip + CanonLen(c[ip]) <= |c| && x.lay.outs[i] == ip && x.lay.outs[i + 1] == next
    && (forall k :: ip <= k < next ==> x.pcs[k] == ip)
    && c[ip] in {OP_RET, OP_CALL, OP_PUSH_BOOL, OP_HALT}
  }

  /** The first block is a jump over less than 256 bytes, to a place that does not move. */
  ghost predicate JumpsAt(x: Compiled, off: int) {
    && 1 < |x.lay.starts| == |x.lay.outs| && |x.pcs| == |x.c.code| + 1 && x.body == x.c.code
    && x.lay.starts[0] == x.lay.outs[0] == 0 && x.lay.starts[1] == x.lay.outs[1] == 3 <= |x.c.code|
    && x.c.code[..3] == [OP_JUMP, off, 0] && 0 <= off < 256
    && 3 + off <= |x.c.code| && x.pcs[3 + off] == 3 + off && forall k :: 0 <= k < 3 ==> x.pcs[k] == 0
  }

  lemma OtherBytes(c: seq<Byte>, ip: nat)
    requires ip < |c| && ip + CanonLen(c[ip]) <= |c|
    requires c[ip] != OP_JUMP && c[ip] != OP_JUMP_IF_FALSE && c[ip] != OP_TRY && c[ip] != OP_BRANCH_3
    ensures Arms(c, ip, Copy) == [] && Emit(c, ip, Copy, []) == c[ip..ip + CanonLen(c[ip])]
  {
  }

  lemma RelIs(arms: seq<Arm>, out: nat, pcs: seq<nat>, size: nat)
    ensures arms == [] ==> RelOf(arms, out, pcs, size) == []
    ensures |arms| == 1 ==> RelOf(arms, out, pcs, size) == [NewTarget(pcs, size, arms[0].target) - (out + arms[0].base)]
  {
  }

  lemma JumpReads(c: seq<Byte>, off: int)
    requires 3 <= |c| && c[..3] == [OP_JUMP, off, 0] && 0 <= off < 256
    ensures c[0] == OP_JUMP && Offset(c, 1) == off
  {
    assert c[0] == c[..3][0] && c[1] == c[..3][1] && c[2] == c[..3][2];
  }

  lemma JumpBytes(c: seq<Byte>, off: int)
    requires 3 <= |c| && c[..3] == [OP_JUMP, off, 0] && 0 <= off < 256
    ensures c[0] == OP_JUMP && Arms(c, 0, Copy) == [Arm(3 + off, 1, 3)] && Emit(c, 0, Copy, [off]) == [OP_JUMP, off, 0]
  {
    JumpReads(c, off);
  }

  lemma CopiedJump(x: Compiled, off: int)
    requires JumpsAt(x, off)
    ensures |x.c.code| > 0 && x.In().KindAt(0) == Copy && x.In().BlockAt(0)
    ensures Adjacent(x.In(), x.lay, 0) && MappedBlock(x.lay, x.pcs, 0) && BlockDone(x.In(), x.lay, x.body, x.pcs, 0)
  {
    JumpBytes(x.c.code, off);
    PlainKind(x.In(), 0);
    RelIs(x.In().ArmsAt(0), 0, x.pcs, |x.body|);
    JumpPlaced(x, off);
  }

  lemma JumpPlaced(x: Compiled, off: int)
    requires JumpsAt(x, off) && x.In().BlockAt(0) && x.In().KindAt(0) == Copy && CanonLen(x.c.code[0]) == 3
    requires RelOf(x.In().ArmsAt(0), 0, x.pcs, |x.body|) == [off] && x.In().Block(0, [off]) == [OP_JUMP, off, 0]
    ensures Adjacent(x.In(), x.lay, 0) && MappedBlock(x.lay, x.pcs, 0) && BlockDone(x.In(), x.lay, x.body, x.pcs, 0)
  {
    BytesAreThere(x.body, 0, 3);
  }

  lemma CopiedOther(a: Input, ip: nat, out: nat, pcs: seq<nat>, size: nat)
    requires a.BlockAt(ip) && a.KindAt(ip) == Copy
    requires a.c[ip] != OP_JUMP && a.c[ip] != OP_JUMP_IF_FALSE && a.c[ip] != OP_TRY && a.c[ip] != OP_BRANCH_3
    ensures a.Block(ip, RelOf(a.ArmsAt(ip), out, pcs, size)) == a.c[ip..ip + CanonLen(a.c[ip])]
  {
    OtherBytes(a.c, ip);
    RelIs(a.ArmsAt(ip), out, pcs, size);
  }

  lemma BytesAreThere(code: seq<Byte>, ip: nat, next: nat)
    requires ip <= next <= |code|
    ensures HasBytes(code, ip, code[ip..next])
  {
  }

  lemma PlacedCopy(x: Compiled, i: nat, ip: nat, next: nat, out: nat)
    requires i + 1 < |x.lay.starts| && i + 1 < |x.lay.outs| && ip == x.lay.starts[i] && next == x.lay.starts[i + 1]
    requires x.In().BlockAt(ip) && x.In().KindAt(ip) == Copy && next == ip + CanonLen(x.c.code[ip]) < |x.pcs|
    requires out == x.lay.outs[i] && x.lay.outs[i + 1] == out + (next - ip) && forall k :: ip <= k < next ==> x.pcs[k] == out
    requires HasBytes(x.body, out, x.c.code[ip..next])
    requires x.In().Block(ip, RelOf(x.In().ArmsAt(ip), out, x.pcs, |x.body|)) == x.c.code[ip..next]
    ensures Adjacent(x.In(), x.lay, i) && MappedBlock(x.lay, x.pcs, i) && BlockDone(x.In(), x.lay, x.body, x.pcs, i)
  {
  }

  lemma CopiedBlock(x: Compiled, i: nat)
    requires CopiesAt(x, i)
    ensures x.In().KindAt(x.lay.starts[i]) == Copy && x.In().BlockAt(x.lay.starts[i])
    ensures Adjacent(x.In(), x.lay, i) && MappedBlock(x.lay, x.pcs, i) && BlockDone(x.In(), x.lay, x.body, x.pcs, i)
  {
    var ip, next := x.lay.starts[i], x.lay.starts[i + 1];
    PlainKind(x.In(), ip);
    CopiedOther(x.In(), ip, ip, x.pcs, |x.body|);
    BytesAreThere(x.body, ip, next);
    PlacedCopy(x, i, ip, next, ip);
  }

  /** The optimizer leaves the chunk as it is. */
  ghost predicate Copied(x: Compiled) {
    && x.c.code != []
    && |x.lay.starts| == |x.lay.outs| >= 2 && x.lay.starts[0] == 0 && x.lay.outs[0] == 0
    && x.lay.starts[|x.lay.starts| - 1] == x.lay.outs[|x.lay.outs| - 1] == |x.c.code|
    && x.body == x.c.code && |x.pcs| == |x.c.code| + 1 && x.pcs[|x.c.code|] == |x.c.code|
    && (exists off :: JumpsAt(x, off)) && forall i: nat :: 0 < i < Blocks(x.lay) ==> CopiesAt(x, i)
  }

  lemma AnyCopied(x: Compiled, i: nat)
    requires Copied(x) && i < Blocks(x.lay)
    ensures x.lay.starts[i] < |x.c.code| && x.In().BlockAt(x.lay.starts[i]) && x.In().KindAt(x.lay.starts[i]) == Copy
    ensures Adjacent(x.In(), x.lay, i) && MappedBlock(x.lay, x.pcs, i) && BlockDone(x.In(), x.lay, x.body, x.pcs, i)
  {
    if i == 0 {
      var off :| JumpsAt(x, off);
      CopiedJump(x, off);
    } else {
      assert CopiesAt(x, i);
      CopiedBlock(x, i);
    }
  }

  /** Such a chunk is its own translation. */
  lemma CopiedIsTranslated(x: Compiled)
    requires Copied(x)
    ensures Translated(x.In(), x.lay, x.pcs, x.body)
  {
    forall i: nat | i < Blocks(x.lay) ensures Adjacent(x.In(), x.lay, i) && MappedBlock(x.lay, x.pcs, i) {
      AnyCopied(x, i);
    }
    forall i: nat {:trigger BlockDone(x.In(), x.lay, x.body, x.pcs, i)} | i < Blocks(x.lay)
      ensures BlockDone(x.In(), x.lay, x.body, x.pcs, i)
    {
      AnyCopied(x, i);
    }
  }

  lemma CopiedIsSound(x: Compiled)
    requires Copied(x) && Whole(x.c.code, 0) && x.EndGuarded()
    requires forall t :: t in TargetsFrom(x.c.code, 0) ==> 0 <= t <= |x.c.code| && Steps(x.c.code, 0, t)
    ensures x.Sound()
    ensures forall t: int :: !InsideUnguarded(x.In(), x.lay, t)
  {
    CopiedIsTranslated(x);
    forall i: nat | i < Blocks(x.lay) && Adjacent(x.In(), x.lay, i) ensures !Unguarded(x.In().KindAt(x.lay.starts[i])) {
      AnyCopied(x, i);
    }
  }

  /** The start of a run: nothing on the stack, nothing called, `top` slots for the top level. */
  function Start(top: nat): Thread {
    Thread(State(0, Empty, map[], map[], []), Rest(map[], top, []))
  }

  lemma StartIsGoodHere(x: Compiled, top: nat)
    requires x.Sound() && Copied(x)
    ensures GoodThread(x, Start(top))
  {
    AnyCopied(x, 0);
  }

  /** One more step in front of a run. */
  lemma StepFirst(p: Program, t: Thread, u: Thread, n: nat)
    requires p.Next(t) == Going(u)
    ensures p.Run(t, n + 1) == p.Run(u, n)
  {
    assert p.Machine()(t) == p.Next(t);
  }

  lemma LastStep(p: Program, t: Thread)
    ensures p.Run(t, 1) == p.Next(t)
  {
    RunOne(p.Machine(), t);
  }

  lemma NextJump(p: Program, t: Thread)
    requires 0 <= t.s.pc && t.s.pc + 3 <= |p.code| && p.code[t.s.pc] == OP_JUMP
    ensures p.Next(t) == Going(t.(s := t.s.(pc := t.s.pc + 3 + Offset(p.code, t.s.pc + 1))))
  {
  }

  lemma NextCall(p: Program, t: Thread, call: Call)
    requires 0 <= t.s.pc && t.s.pc + 4 <= |p.code| && IsCall(p.code[t.s.pc])
    requires call == Called(p.code, p.table, p.sizes, t.s.pc) && call.Call? && call.argc == 0 && t.rest.frames == []
    ensures p.Next(t) == Going(Entered(t.s, t.rest, call))
  {
  }

  lemma CallTo(s: State, rest: Rest, call: Call)
    requires call.Call? && call.argc == 0
    ensures var u := Entered(s, rest, call);
      && u.s.pc == call.entry && u.s.stack == s.stack
      && u.rest.frames == rest.frames + [Frame(call.back, rest.top, call.frame, s.stack)]
  {
  }

  lemma ReturnTo(s: State, rest: Rest, v: Value)
    requires rest.frames != []
    ensures var u, f := Returned(s, rest, v), rest.frames[|rest.frames| - 1];
      u.s.pc == f.back && u.s.stack == Push(v, f.under)
  {
  }

  lemma NextReturn(p: Program, t: Thread)
    requires 0 <= t.s.pc < |p.code| && Returns(p.code[t.s.pc])
    ensures p.Next(t) == Leave(t.s, t.rest, p.code[t.s.pc] == OP_RET)
  {
  }

  lemma NextPushBool(p: Program, t: Thread)
    requires 0 <= t.s.pc && t.s.pc + 2 <= |p.code| && p.code[t.s.pc] == OP_PUSH_BOOL
    ensures p.Next(t) == Going(t.(s := t.s.(pc := t.s.pc + 2, stack := Push(Bool(p.code[t.s.pc + 1] != 0), t.s.stack))))
  {
  }

  lemma NextHalt(p: Program, t: Thread)
    requires 0 <= t.s.pc < |p.code| && p.code[t.s.pc] == OP_HALT
    ensures p.Next(t) == Ended(Stops(Halted(t.s), t.rest))
  {
  }

  // ---------------------------------------------- a return without a value

  /** JUMP over the function; RET; CALL it; HALT */
  const BARE_RETURN: seq<Byte> := [OP_JUMP, 1, 0, OP_RET, OP_CALL, 0, 0, 0, OP_HALT]

  /** That chunk, whose function 0 is the bare return, optimized with lowered calls. */
  predicate BareReturn(w: Finished) {
    && w.x.c == Chunk(BARE_RETURN, [3], []) && w.x.body == BARE_RETURN && w.fast && w.table == [3] && w.frames == [32]
    && w.x.lay == Layout([0, 3, 4, 8, 9], [0, 3, 4, 8, 9]) && w.x.pcs == [0, 0, 0, 3, 4, 4, 4, 4, 8, 9]
  }

  lemma BareReturnCopies(x: Compiled)
    requires x.c.code == x.body == BARE_RETURN && x.pcs == [0, 0, 0, 3, 4, 4, 4, 4, 8, 9]
    requires x.lay == Layout([0, 3, 4, 8, 9], [0, 3, 4, 8, 9])
    ensures JumpsAt(x, 1) && CopiesAt(x, 1) && CopiesAt(x, 2) && CopiesAt(x, 3)
  {
  }

  lemma BareReturnTargets(c: seq<Byte>)
    requires c == BARE_RETURN
    ensures Whole(c, 0) && TargetsFrom(c, 0) == {4} && Steps(c, 0, 4) && Steps(c, 0, 3)
  {
    WholeHere(c, 8, 9);
    WholeHere(c, 4, 8);
    WholeHere(c, 3, 4);
    WholeHere(c, 0, 3);
    NoTargetHere(c, 8, 9);
    NoTargetHere(c, 4, 8);
    NoTargetHere(c, 3, 4);
    assert Offset(c, 1) == 1;
    assert DirectTargets(c, 0) == [4];
    assert TargetsFrom(c, 3) == {};
    assert Steps(c, 3, 4);
  }

  lemma BareReturnIsSound(w: Finished)
    requires BareReturn(w)
    ensures w.x.Sound() && Copied(w.x)
    ensures forall t: int :: !InsideUnguarded(w.x.In(), w.x.lay, t)
  {
    BareReturnCopies(w.x);
    forall i: nat | 0 < i < 4 ensures CopiesAt(w.x, i) {
      assert i == 1 || i == 2 || i == 3;
    }
    BareReturnTargets(w.x.c.code);
    CopiedIsSound(w.x);
  }

  lemma NoFastForm(c: seq<Byte>, ip: nat)
    requires ip < |c| && forall k :: 0 <= k < |c| ==> !FastForm(c[k])
    ensures !FastForm(c[ip])
  {
  }

  lemma BareReturnIsReady(w: Finished)
    requires BareReturn(w)
    ensures w.Ready()
  {
    BareReturnIsSound(w);
    BareReturnTargets(w.x.c.code);
    assert Relocated([3], w.x.pcs) == [3];
    forall ip: nat | Steps(w.x.c.code, 0, ip) && ip < |w.x.c.code| ensures !FastForm(w.x.c.code[ip]) {
      NoFastForm(w.x.c.code, ip);
    }
  }

  lemma BareReturnLowered(w: Finished)
    requires BareReturn(w)
    ensures w.Code() == [OP_JUMP, 1, 0, OP_RET_FAST, OP_CALL_FAST_0, 3, 0, 32, OP_HALT]
  {
    var c := BARE_RETURN;
    var d: seq<Byte> := c[3 := OP_RET_FAST];
    var e: seq<Byte> := d[4 := OP_CALL_FAST_0][5 := 3][6 := 0][7 := 32];
    assert LowerOne(c, w.table, w.frames, 0) == c;
    assert LowerOne(c, w.table, w.frames, 3) == d;
    assert LowerOne(d, w.table, w.frames, 4) == e;
    assert LowerOne(e, w.table, w.frames, 8) == e;
    assert Lowered(e, w.table, w.frames, 9) == e;
    assert Lowered(e, w.table, w.frames, 8) == e;
    assert Lowered(d, w.table, w.frames, 4) == e;
    assert Lowered(c, w.table, w.frames, 3) == e;
    assert w.Low() == e;
  }

  /** From the start, the canonical return finds a default value and the run halts; the lowered
      return takes its value from below the stack. */
  lemma EmptyReturnParts(w: Finished, top: nat, n: nat)
    requires BareReturn(w) && n == 3
    ensures w.Ready() && GoodThread(w.x, Start(top))
    ensures var r := w.Canonical().Run(Start(top), n + 1); r.Ended? && r.e.Stops? && r.e.o.Halted?
    ensures w.Optimized().Run(MapThread(w.x.Map(), Start(top)), n) == Ended(BelowStack)
  {
    BareReturnIsReady(w);
    BareReturnIsSound(w);
    StartIsGoodHere(w.x, top);
    BareReturnHalts(w, top, n);
    BareReturnStrays(w, top, n);
  }

  lemma BareReturnHalts(w: Finished, top: nat, n: nat)
    requires BareReturn(w) && n == 3
    ensures var r := w.Canonical().Run(Start(top), n + 1); r.Ended? && r.e.Stops? && r.e.o.Halted?
  {
    var p, t := w.Canonical(), Start(top);
    var t1 := t.(s := t.s.(pc := 4));
    var t2 := Entered(t1.s, t1.rest, FastCalls.Call(3, 0, 32, 8));
    var t3 := Returned(t2.s, t2.rest, Nil);
    assert Offset(p.code, 1) == 1;
    NextJump(p, t);
    NextCall(p, t1, FastCalls.Call(3, 0, 32, 8));
    NextReturn(p, t2);
    NextHalt(p, t3);
    LastStep(p, t3);
    StepFirst(p, t2, t3, n - 2);
    StepFirst(p, t1, t2, n - 1);
    StepFirst(p, t, t1, n);
  }

  lemma StartMapped(x: Compiled, top: nat)
    requires Copied(x)
    ensures MapThread(x.Map(), Start(top)) == Start(top)
  {
    var off :| JumpsAt(x, off);
    assert x.Map().Pc(0) == 0;
    assert x.Map().Handlers([]) == [];
    assert MapFrames(x.Map(), []) == [];
  }

  lemma BareReturnStrays(w: Finished, top: nat, n: nat)
    requires BareReturn(w) && Copied(w.x) && n == 3
    ensures w.Optimized().Run(MapThread(w.x.Map(), Start(top)), n) == Ended(BelowStack)
  {
    var p, t := w.Optimized(), Start(top);
    var t1 := t.(s := t.s.(pc := 4));
    var t2 := Entered(t1.s, t1.rest, FastCalls.Call(3, 0, 32, 8));
    StartMapped(w.x, top);
    BareReturnLowered(w);
    assert Offset(p.code, 1) == 1;
    NextJump(p, t);
    NextCall(p, t1, FastCalls.Call(3, 0, 32, 8));
    NextReturn(p, t2);
    LastStep(p, t2);
    StepFirst(p, t1, t2, n - 2);
    StepFirst(p, t, t1, n - 1);
  }

  // ------------------------------------------------ a call that looks like a HALT

  /** JUMP over the function; PUSH_BOOL, RET; CALL it, at the end of the code */
  const LAST_CALL: seq<Byte> := [OP_JUMP, 3, 0, OP_PUSH_BOOL, 1, OP_RET, OP_CALL, 0, 0, 0]

  /** That chunk, in which function 0 starts at 3 and has a frame of 255 slots. */
  predicate CalledLast(w: Finished) {
    && w.x.c == Chunk(LAST_CALL, [3], []) && w.x.body == LAST_CALL && w.fast && w.table == [3] && w.frames == [255]
    && w.x.lay == Layout([0, 3, 5, 6, 10], [0, 3, 5, 6, 10]) && w.x.pcs == [0, 0, 0, 3, 3, 5, 6, 6, 6, 6, 10]
  }

  lemma LastCallCopies(x: Compiled)
    requires x.c.code == x.body == LAST_CALL && x.pcs == [0, 0, 0, 3, 3, 5, 6, 6, 6, 6, 10]
    requires x.lay == Layout([0, 3, 5, 6, 10], [0, 3, 5, 6, 10])
    ensures JumpsAt(x, 3) && CopiesAt(x, 1) && CopiesAt(x, 2) && CopiesAt(x, 3)
  {
  }

  lemma LastCallTargets(c: seq<Byte>)
    requires c == LAST_CALL
    ensures Whole(c, 0) && TargetsFrom(c, 0) == {6} && Steps(c, 0, 6) && Steps(c, 0, 3)
  {
    WholeHere(c, 6, 10);
    WholeHere(c, 5, 6);
    WholeHere(c, 3, 5);
    WholeHere(c, 0, 3);
    NoTargetHere(c, 6, 10);
    NoTargetHere(c, 5, 6);
    NoTargetHere(c, 3, 5);
    assert Offset(c, 1) == 3;
    assert DirectTargets(c, 0) == [6];
    assert TargetsFrom(c, 3) == {};
    assert Steps(c, 5, 6);
    assert Steps(c, 3, 6);
  }

  lemma LastCallIsSound(w: Finished)
    requires CalledLast(w)
    ensures w.x.Sound() && Copied(w.x)
    ensures forall t: int :: !InsideUnguarded(w.x.In(), w.x.lay, t)
  {
    LastCallCopies(w.x);
    forall i: nat | 0 < i < 4 ensures CopiesAt(w.x, i) {
      assert i == 1 || i == 2 || i == 3;
    }
    LastCallTargets(w.x.c.code);
    CopiedIsSound(w.x);
  }

  lemma LastCallIsReady(w: Finished)
    requires CalledLast(w)
    ensures w.Ready()
  {
    LastCallIsSound(w);
    LastCallTargets(w.x.c.code);
    assert Relocated([3], w.x.pcs) == [3];
    forall ip: nat | Steps(w.x.c.code, 0, ip) && ip < |w.x.c.code| ensures !FastForm(w.x.c.code[ip]) {
      NoFastForm(w.x.c.code, ip);
    }
  }

  lemma LastCallLowered(w: Finished)
    requires CalledLast(w)
    ensures w.Code() == w.Low() == [OP_JUMP, 3, 0, OP_PUSH_BOOL, 1, OP_RET_FAST, OP_CALL_FAST_0, 3, 0, 255]
  {
    var c := LAST_CALL;
    var d: seq<Byte> := c[5 := OP_RET_FAST];
    LastCallLoweredFrom5(c, d, w.table, w.frames);
    assert LowerOne(c, w.table, w.frames, 0) == c;
    assert LowerOne(c, w.table, w.frames, 3) == c;
    assert Lowered(c, w.table, w.frames, 3) == Lowered(c, w.table, w.frames, 5);
  }

  lemma LastCallLoweredFrom5(c: seq<Byte>, d: seq<Byte>, table: seq<nat>, frames: seq<nat>)
    requires c == LAST_CALL && d == c[5 := OP_RET_FAST] && table == [3] && frames == [255]
    ensures Lowered(c, table, frames, 5) == [OP_JUMP, 3, 0, OP_PUSH_BOOL, 1, OP_RET_FAST, OP_CALL_FAST_0, 3, 0, 255]
  {
    var e: seq<Byte> := d[6 := OP_CALL_FAST_0][7 := 3][8 := 0][9 := 255];
    assert LowerOne(c, table, frames, 5) == d;
    assert LowerOne(d, table, frames, 6) == e;
    assert Lowered(e, table, frames, 10) == e;
    assert Lowered(d, table, frames, 6) == e;
  }

  /** The threads of that run: in the function, and back behind the call. */
  function InFunction(top: nat): Thread {
    var t := Start(top).(s := Start(top).s.(pc := 6));
    Entered(t.s, t.rest, FastCalls.Call(3, 0, 255, 10))
  }

  function BehindCall(top: nat): Thread {
    var t := InFunction(top);
    var u := t.(s := t.s.(pc := 5, stack := Push(Bool(true), t.s.stack)));
    Returned(u.s, u.rest, Bool(true))
  }

  /** From the start to behind the call takes four steps in both codes. */
  lemma CalledAndBack(p: Program, top: nat, n: nat)
    requires |p.code| == 10 && p.code[..5] == [OP_JUMP, 3, 0, OP_PUSH_BOOL, 1] && Returns(p.code[5])
    requires p.table == [3] && p.sizes == [255]
    requires p.code[6..] == [OP_CALL, 0, 0, 0] || p.code[6..] == [OP_CALL_FAST_0, 3, 0, 255]
    requires n == 4
    ensures p.Run(Start(top), n) == Going(BehindCall(top)) && BehindCall(top).s.pc == 10
  {
    var t := Start(top);
    var t1 := t.(s := t.s.(pc := 6));
    var t2 := InFunction(top);
    var t3 := t2.(s := t2.s.(pc := 5, stack := Push(Bool(true), t2.s.stack)));
    TenBytes(p.code);
    NextJump(p, t);
    NextCall(p, t1, FastCalls.Call(3, 0, 255, 10));
    NextPushBool(p, t2);
    NextReturn(p, t3);
    LastStep(p, t3);
    StepFirst(p, t2, t3, n - 3);
    StepFirst(p, t1, t2, n - 2);
    StepFirst(p, t, t1, n - 1);
  }

  lemma TenBytes(c: seq<Byte>)
    requires |c| == 10 && c[..5] == [OP_JUMP, 3, 0, OP_PUSH_BOOL, 1]
    requires c[6..] == [OP_CALL, 0, 0, 0] || c[6..] == [OP_CALL_FAST_0, 3, 0, 255]
    ensures c[0] == OP_JUMP && Offset(c, 1) == 3 && c[3] == OP_PUSH_BOOL && c[4] == 1
    ensures IsCall(c[6]) && Called(c, [3], [255], 6) == FastCalls.Call(3, 0, 255, 10)
  {
    assert c[0] == c[..5][0] && c[1] == c[..5][1] && c[2] == c[..5][2] && c[3] == c[..5][3] && c[4] == c[..5][4];
    assert c[6] == c[6..][0] && c[7] == c[6..][1] && c[8] == c[6..][2] && c[9] == c[6..][3];
  }

  /** The short form of the call ends in the frame size 255 and no HALT is appended: from the
      start, the called function returns behind the call, where the canonical run halts and the
      optimized one reads outside the code. */
  lemma LastCallLosesSentinel(w: Finished, top: nat, n: nat)
    requires CalledLast(w) && n == 4
    ensures w.Ready() && GoodThread(w.x, Start(top)) && w.Open()
    ensures w.Canonical().Run(Start(top), n + 1) == Ended(Stops(Halted(BehindCall(top).s), BehindCall(top).rest))
    ensures w.Optimized().Run(MapThread(w.x.Map(), Start(top)), n + 1) == Ended(Stops(Wild, BehindCall(top).rest))
  {
    LastCallIsReady(w);
    LastCallIsSound(w);
    StartIsGoodHere(w.x, top);
    StartMapped(w.x, top);
    LastCallLowered(w);
    LastCallRuns(w, top, n);
  }

  lemma LastCallRuns(w: Finished, top: nat, n: nat)
    requires CalledLast(w) && n == 4
    requires w.Code() == [OP_JUMP, 3, 0, OP_PUSH_BOOL, 1, OP_RET_FAST, OP_CALL_FAST_0, 3, 0, 255]
    ensures w.Canonical().Run(Start(top), n + 1) == Ended(Stops(Halted(BehindCall(top).s), BehindCall(top).rest))
    ensures w.Optimized().Run(Start(top), n + 1) == Ended(Stops(Wild, BehindCall(top).rest))
  {
    var t := BehindCall(top);
    CalledAndBack(w.Canonical(), top, n);
    CalledAndBack(w.Optimized(), top, n);
    RunFrom(w.Canonical(), Start(top), n, t, 1);
    RunFrom(w.Optimized(), Start(top), n, t, 1);
    LastStep(w.Canonical(), t);
    LastStep(w.Optimized(), t);
  }

  // --------------------------------------------------------- a frame of 16 bits

  /** LOAD 65527; HALT: the body of function 1, which starts at 0. */
  const WIDE: seq<Byte> := [OP_LOAD_LOCAL, 0xF7, 0xFF, OP_HALT]

  /** That chunk, with two functions that start at 0 and declare 32 slots each. */
  predicate Wide(x: Compiled) {
    && x.c == Chunk(WIDE, [0, 0], []) && x.body == WIDE
    && x.lay == Layout([0, 3, 4], [0, 3, 4]) && x.pcs == [0, 0, 0, 3, 4]
  }

  lemma WideKind(a: Input)
    requires a.c == WIDE
    ensures a.KindAt(0) == Copy && a.BlockAt(0) && a.KindAt(3) == Copy && a.BlockAt(3)
  {
    assert Slot(WIDE, 1) == 65527;
  }

  lemma WideDone(x: Compiled, i: nat)
    requires Wide(x) && i < 2
    ensures Adjacent(x.In(), x.lay, i) && MappedBlock(x.lay, x.pcs, i) && BlockDone(x.In(), x.lay, x.body, x.pcs, i)
  {
    WideKind(x.In());
    CopiedOther(x.In(), x.lay.starts[i], x.lay.starts[i], x.pcs, |x.body|);
    BytesAreThere(x.body, x.lay.starts[i], x.lay.starts[i + 1]);
  }

  lemma WideIsSound(x: Compiled)
    requires Wide(x)
    ensures x.Sound()
  {
    forall i: nat | i < 2 ensures Adjacent(x.In(), x.lay, i) && MappedBlock(x.lay, x.pcs, i) {
      WideDone(x, i);
    }
    forall i: nat {:trigger BlockDone(x.In(), x.lay, x.body, x.pcs, i)} | i < 2
      ensures BlockDone(x.In(), x.lay, x.body, x.pcs, i)
    {
      WideDone(x, i);
    }
    WideKind(x.In());
    WholeHere(WIDE, 3, 4);
    WholeHere(WIDE, 0, 3);
    NoTargetHere(WIDE, 3, 4);
    NoTargetHere(WIDE, 0, 3);
    assert TargetsFrom(WIDE, 0) == {};
    forall i: nat | i < 2 ensures x.In().KindAt(x.lay.starts[i]) != LoopHeader {
      assert i == 0 || i == 1;
    }
  }

  /** The size needed is 65536, which is zero in 16 bits: the frame stays at its declared
      32 slots and does not contain the slot that the code loads. */
  lemma WideSlotOutsideFrame(x: Compiled, sizes: seq<nat>, frames: seq<nat>, top: nat)
    requires Wide(x) && sizes == [32, 32] && |frames| == 2
    requires forall f :: 0 <= f < 2 ==> frames[f] == Raised(Declared(sizes, 2)[f], Needed16(MaxSlot(x.body, [0, 0], f, 0)))
    requires top == Raised(32, Needed(MaxSlot(x.body, [0, 0], -1, 0)))
    ensures x.Sound() && Relocated(x.c.functionTable, x.pcs) == [0, 0]
    ensures Touched(Decode(x.body, 0)) == [65527] && FrameAt([0, 0], frames, top, 0) == 32
    ensures !AllCovered(x.body, [0, 0], frames, top)
  {
    WideIsSound(x);
    WideIsUncovered(x.body, [0, 0], sizes, frames, top);
  }

  lemma WideIsUncovered(code: seq<Byte>, table: seq<nat>, sizes: seq<nat>, frames: seq<nat>, top: nat)
    requires code == WIDE && table == [0, 0] && sizes == [32, 32] && |frames| == 2
    requires forall f :: 0 <= f < 2 ==> frames[f] == Raised(Declared(sizes, 2)[f], Needed16(MaxSlot(code, table, f, 0)))
    requires top == Raised(32, Needed(MaxSlot(code, table, -1, 0)))
    ensures Touched(Decode(code, 0)) == [65527] && FrameAt(table, frames, top, 0) == 32
    ensures !AllCovered(code, table, frames, top)
  {
    assert ScanSlots(code, 0) == [65527] && ScanSlots(code, 3) == [];
    assert MaxOf([]) == -1;
    assert MaxOf([65527]) == 65527;
    assert Owner(table, 0, 1) == -1 && Owner(table, 0, 2) == 1;
    assert MaxSlot(code, table, 1, 4) == -1;
    assert MaxSlot(code, table, 1, 3) == -1;
    assert MaxSlot(code, table, 1, 0) == 65527;
    VerifiedFramesCoverIff(code, table, sizes, 32, frames, top);
  }

  // ----------------------------------------------- a call of a code position

  /** LOAD 0; CALL position 8; HALT; at 8: PUSH_BOOL, RET */
  const DIRECT: seq<Byte> := [OP_LOAD_LOCAL, 0, 0, OP_CALL, 8, 0, 0, OP_HALT, OP_PUSH_BOOL, 1, OP_RET]

  /** That chunk, without a function table; the load shrinks to one byte. */
  predicate Direct(x: Compiled) {
    && x.c == Chunk(DIRECT, [], []) && x.f.locals
    && x.body == [OP_LOAD_LOCAL_0, OP_CALL, 8, 0, 0, OP_HALT, OP_PUSH_BOOL, 1, OP_RET]
    && x.lay == Layout([0, 3, 7, 8, 10, 11], [0, 1, 5, 6, 8, 9]) && x.pcs == [0, 0, 0, 1, 1, 1, 1, 5, 6, 6, 8, 9]
  }

  lemma SmallLoadKind(a: Input)
    requires 4 < |a.c| && a.c[0] == OP_LOAD_LOCAL && a.c[3] == OP_CALL && Slot(a.c, 1) == 0 && a.f.locals
    ensures a.KindAt(0) == LoadSmall && a.BlockAt(0)
  {
  }

  lemma SmallLoadBlock(a: Input)
    requires a.BlockAt(0) && a.KindAt(0) == LoadSmall && Slot(a.c, 1) == 0
    ensures a.ArmsAt(0) == [] && a.Block(0, []) == [OP_LOAD_LOCAL_0]
  {
  }

  lemma DirectFirstKind(a: Input)
    requires a.c == DIRECT && a.f.locals
    ensures a.KindAt(0) == LoadSmall && a.BlockAt(0)
  {
    SmallLoadKind(a);
  }

  lemma DirectFirst(x: Compiled)
    requires Direct(x) && x.In().KindAt(0) == LoadSmall && x.In().BlockAt(0)
    ensures Adjacent(x.In(), x.lay, 0) && MappedBlock(x.lay, x.pcs, 0) && BlockDone(x.In(), x.lay, x.body, x.pcs, 0)
  {
    SmallLoadBlock(x.In());
    RelIs(x.In().ArmsAt(0), 0, x.pcs, |x.body|);
    SmallLoadPlaced(x);
  }

  lemma SmallLoadPlaced(x: Compiled)
    requires 1 < |x.lay.starts| && 1 < |x.lay.outs| && x.lay.starts[0] == 0 && x.lay.starts[1] == 3 < |x.pcs|
    requires x.lay.outs[0] == 0 && x.lay.outs[1] == 1 && forall k :: 0 <= k < 3 ==> x.pcs[k] == 0
    requires |x.c.code| > 0 && x.In().BlockAt(0) && x.In().KindAt(0) == LoadSmall
    requires |x.body| > 0 && x.body[0] == OP_LOAD_LOCAL_0
    requires x.In().Block(0, RelOf(x.In().ArmsAt(0), 0, x.pcs, |x.body|)) == [OP_LOAD_LOCAL_0]
    ensures Adjacent(x.In(), x.lay, 0) && MappedBlock(x.lay, x.pcs, 0) && BlockDone(x.In(), x.lay, x.body, x.pcs, 0)
  {
  }

  lemma DirectBytes(c: seq<Byte>, body: seq<Byte>, ip: nat, next: nat, out: nat)
    requires c == DIRECT && body == [OP_LOAD_LOCAL_0, OP_CALL, 8, 0, 0, OP_HALT, OP_PUSH_BOOL, 1, OP_RET]
    requires (ip == 3 && next == 7 && out == 1) || (ip == 7 && next == 8 && out == 5)
          || (ip == 8 && next == 10 && out == 6) || (ip == 10 && next == 11 && out == 8)
    ensures next == ip + CanonLen(c[ip]) && HasBytes(body, out, c[ip..next])
  {
  }

  lemma DirectRest(x: Compiled, i: nat, ip: nat, next: nat, out: nat)
    requires Direct(x) && 1 <= i < 5 && ip == x.lay.starts[i] && next == x.lay.starts[i + 1] && out == x.lay.outs[i]
    ensures x.In().KindAt(ip) == Copy && x.In().BlockAt(ip)
    ensures Adjacent(x.In(), x.lay, i) && MappedBlock(x.lay, x.pcs, i) && BlockDone(x.In(), x.lay, x.body, x.pcs, i)
  {
    DirectBytes(x.c.code, x.body, ip, next, out);
    PlainKind(x.In(), ip);
    CopiedOther(x.In(), ip, out, x.pcs, |x.body|);
    PlacedCopy(x, i, ip, next, out);
  }

  lemma DirectBlock(x: Compiled, i: nat)
    requires Direct(x) && i < 5
    ensures Adjacent(x.In(), x.lay, i) && MappedBlock(x.lay, x.pcs, i) && BlockDone(x.In(), x.lay, x.body, x.pcs, i)
    ensures !Unguarded(x.In().KindAt(x.lay.starts[i]))
  {
    if i == 0 {
      DirectFirstKind(x.In());
      DirectFirst(x);
    } else {
      DirectRest(x, i, x.lay.starts[i], x.lay.starts[i + 1], x.lay.outs[i]);
    }
  }

  lemma DirectHasNoTarget(c: seq<Byte>)
    requires c == DIRECT
    ensures Whole(c, 0) && TargetsFrom(c, 0) == {}
  {
    WholeHere(c, 10, 11);
    WholeHere(c, 8, 10);
    WholeHere(c, 7, 8);
    WholeHere(c, 3, 7);
    WholeHere(c, 0, 3);
    NoTargetHere(c, 10, 11);
    NoTargetHere(c, 8, 10);
    NoTargetHere(c, 7, 8);
    NoTargetHere(c, 3, 7);
    NoTargetHere(c, 0, 3);
  }

  lemma DirectIsSound(x: Compiled)
    requires Direct(x)
    ensures x.Sound()
  {
    forall i: nat | i < 5 ensures Adjacent(x.In(), x.lay, i) && MappedBlock(x.lay, x.pcs, i) {
      DirectBlock(x, i);
    }
    forall i: nat {:trigger BlockDone(x.In(), x.lay, x.body, x.pcs, i)} | i < 5
      ensures BlockDone(x.In(), x.lay, x.body, x.pcs, i)
    {
      DirectBlock(x, i);
    }
    DirectHasNoTarget(x.c.code);
    forall i: nat | i < Blocks(x.lay) && Adjacent(x.In(), x.lay, i) ensures x.In().KindAt(x.lay.starts[i]) != LoopHeader {
      DirectBlock(x, i);
    }
  }

  lemma NextLoad(p: Program, t: Thread, next: int)
    requires 0 <= t.s.pc < |p.code| && next == t.s.pc + OptLen(p.code[t.s.pc]) <= |p.code|
    requires p.code[t.s.pc] == OP_LOAD_LOCAL_0 || (p.code[t.s.pc] == OP_LOAD_LOCAL && Slot(p.code, t.s.pc + 1) == 0)
    ensures p.Next(t) == Going(t.(s := t.s.(pc := next, stack := Push(Get(t.s.locals, 0), t.s.stack))))
  {
  }

  /** The canonical run enters the function and gets its value; the optimized one enters in the middle
      of it, at the same number, and gets the local that the caller had loaded. */
  lemma DirectEntryIsStale(x: Compiled, sizes: seq<nat>, top: nat, n: nat)
    requires Direct(x) && n == 5
    ensures x.Sound() && x.Map().Pc(8) == 6
    ensures var r := Source(x, sizes).Run(Start(top), n);
      r.Ended? && r.e.Stops? && r.e.o.Halted? && r.e.o.s.stack == Push(Bool(true), Push(Nil, Empty))
    ensures var r := Target(x, sizes).Run(Start(top), n - 1);
      r.Ended? && r.e.Stops? && r.e.o.Halted? && r.e.o.s.stack == Push(Nil, Push(Nil, Empty))
  {
    DirectIsSound(x);
    DirectSource(x, sizes, top, n);
    DirectTarget(x, sizes, top, n - 1);
  }

  lemma DirectSource(x: Compiled, sizes: seq<nat>, top: nat, n: nat)
    requires Direct(x) && n == 5
    ensures var r := Source(x, sizes).Run(Start(top), n);
      r.Ended? && r.e.Stops? && r.e.o.Halted? && r.e.o.s.stack == Push(Bool(true), Push(Nil, Empty))
  {
    DirectCanonical(Source(x, sizes), top, n);
  }

  lemma DirectTarget(x: Compiled, sizes: seq<nat>, top: nat, n: nat)
    requires Direct(x) && n == 4
    ensures var r := Target(x, sizes).Run(Start(top), n);
      r.Ended? && r.e.Stops? && r.e.o.Halted? && r.e.o.s.stack == Push(Nil, Push(Nil, Empty))
  {
    DirectOptimized(Target(x, sizes), top, n);
  }

  lemma DirectCalled(p: Program, t: Thread, ip: nat)
    requires t.s.pc == ip && ip + 4 <= |p.code| && p.code[ip] == OP_CALL && p.table == []
    requires p.code[ip + 1] == 8 && p.code[ip + 2] == 0 && p.code[ip + 3] == 0 && t.rest.frames == []
    ensures var call := FastCalls.Call(8, 0, FrameSize(p.sizes, 8, 0), ip + 4); p.Next(t) == Going(Entered(t.s, t.rest, call))
  {
    NextCall(p, t, FastCalls.Call(8, 0, FrameSize(p.sizes, 8, 0), ip + 4));
  }

  lemma FiveSteps(p: Program, t: Thread, t1: Thread, t2: Thread, t3: Thread, t4: Thread, n: nat)
    requires p.Next(t) == Going(t1) && p.Next(t1) == Going(t2) && p.Next(t2) == Going(t3) && p.Next(t3) == Going(t4)
    requires n == 5
    ensures p.Run(t, n) == p.Next(t4)
  {
    LastStep(p, t4);
    StepFirst(p, t3, t4, n - 4);
    StepFirst(p, t2, t3, n - 3);
    StepFirst(p, t1, t2, n - 2);
    StepFirst(p, t, t1, n - 1);
  }

  lemma FourSteps(p: Program, t: Thread, t1: Thread, t2: Thread, t3: Thread, n: nat)
    requires p.Next(t) == Going(t1) && p.Next(t1) == Going(t2) && p.Next(t2) == Going(t3) && n == 4
    ensures p.Run(t, n) == p.Next(t3)
  {
    LastStep(p, t3);
    StepFirst(p, t2, t3, n - 3);
    StepFirst(p, t1, t2, n - 2);
    StepFirst(p, t, t1, n - 1);
  }

  /** LOAD, CALL position 8, PUSH_BOOL, RET, HALT, one after the other as they stand in the canonical code. */
  lemma DirectCanonical(p: Program, top: nat, n: nat)
    requires |p.code| == 11 && p.code[0] == OP_LOAD_LOCAL && Slot(p.code, 1) == 0 && p.code[3] == OP_CALL && p.table == []
    requires p.code[4] == 8 && p.code[5] == 0 && p.code[6] == 0 && p.code[7] == OP_HALT
    requires p.code[8] == OP_PUSH_BOOL && p.code[9] == 1 && p.code[10] == OP_RET && n == 5
    ensures var r := p.Run(Start(top), n);
      r.Ended? && r.e.Stops? && r.e.o.Halted? && r.e.o.s.stack == Push(Bool(true), Push(Nil, Empty))
  {
    var t := Start(top);
    var t1 := t.(s := t.s.(pc := 3, stack := Push(Nil, Empty)));
    var call := FastCalls.Call(8, 0, FrameSize(p.sizes, 8, 0), 7);
    var t2 := Entered(t1.s, t1.rest, call);
    CallTo(t1.s, t1.rest, call);
    var t3 := t2.(s := t2.s.(pc := 10, stack := Push(Bool(true), t2.s.stack)));
    var t4 := Returned(t3.s, t3.rest, Bool(true));
    ReturnTo(t3.s, t3.rest, Bool(true));
    NextLoad(p, t, 3);
    DirectCalled(p, t1, 3);
    NextPushBool(p, t2);
    NextReturn(p, t3);
    NextHalt(p, t4);
    FiveSteps(p, t, t1, t2, t3, t4, n);
  }

  /** The same call in the optimized code, where position 8 is the return. */
  lemma DirectOptimized(p: Program, top: nat, n: nat)
    requires |p.code| == 10 && p.code[0] == OP_LOAD_LOCAL_0 && p.code[1] == OP_CALL && p.table == []
    requires p.code[2] == 8 && p.code[3] == 0 && p.code[4] == 0 && p.code[5] == OP_HALT && p.code[8] == OP_RET && n == 4
    ensures var r := p.Run(Start(top), n);
      r.Ended? && r.e.Stops? && r.e.o.Halted? && r.e.o.s.stack == Push(Nil, Push(Nil, Empty))
  {
    var t := Start(top);
    var t1 := t.(s := t.s.(pc := 1, stack := Push(Nil, Empty)));
    var call := FastCalls.Call(8, 0, FrameSize(p.sizes, 8, 0), 5);
    var t2 := Entered(t1.s, t1.rest, call);
    CallTo(t1.s, t1.rest, call);
    var t3 := Returned(t2.s, t2.rest, Nil);
    ReturnTo(t2.s, t2.rest, Nil);
    NextLoad(p, t, 1);
    DirectCalled(p, t1, 1);
    NextReturn(p, t2);
    NextHalt(p, t3);
    FourSteps(p, t, t1, t2, t3, n);
  }
}
