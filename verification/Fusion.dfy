/** Whole runs of the optimized chunk against whole runs of the canonical chunk. */
module Fusion {
  import opened Bytes
  import opened Vm
  import opened Optimizer
  import opened Passes
  import opened Relocation
  import opened BlockSemantics
  import opened Simulation
  import opened CanonicalRuns

  /** A chunk together with everything the optimizer made of it. */
  datatype Compiled = Compiled(c: Chunk, f: Flags, lay: Layout, pcs: seq<nat>, body: seq<Byte>)
  {
    function In(): Input {
      Input(c.code, f, Protected(c, f))
    }

    function Map(): Place {
      Place(pcs, |body|)
    }

    ghost predicate Headers() {
      forall i: nat :: i < Blocks(lay) && Adjacent(In(), lay, i) && In().KindAt(lay.starts[i]) == LoopHeader ==>
        EmittedHeader(c.code, lay.starts[i])
    }

    /** The optimizer appended its own HALT. */
    predicate Sealing() {
      body == [] || body[|body| - 1] != OP_HALT
    }

    /** Control cannot run off the end without meeting a HALT: one was appended, or
        the chunk ends in a HALT instruction and nothing jumps past it. */
    ghost predicate EndGuarded() {
      Sealing() || (Blocks(lay) > 0 && |lay.starts| > 0 && lay.starts[Blocks(lay) - 1] < |c.code|
                    && c.code[lay.starts[Blocks(lay) - 1]] == OP_HALT && |c.code| !in TargetsFrom(c.code, 0))
    }

    /** The optimizer ran on code of the shape the emitter produces. */
    ghost predicate Sound() {
      && c.code != [] && Translated(In(), lay, pcs, body) && JumpsAreSound(c, In(), lay)
      && Headers() && EndGuarded()
    }

    ghost predicate AtBlock(pc: int) {
      exists i: nat :: i < Blocks(lay) && Adjacent(In(), lay, i) && lay.starts[i] == pc
    }

    /** States between blocks. */
    ghost predicate Good(s: State) {
      AtBlock(s.pc) || (s.pc == |c.code| && Sealing())
    }

    /** The canonical instructions of one block, with the two places where the
        fused instruction behaves differently written out. */
    ghost function RefBlock(s: State): Outcome {
      if s.pc == |c.code| then Halted(s)
      else if !AtBlock(s.pc) then Wild
      else
        var k := In().KindAt(s.pc);
        if k == LoopHeader && HeaderStep(c.code, s.pc, s) == 0 then ZeroStep(s)
        else
          var o := Run(c.code, true, s, Work(k));
          if k == Increment then DropTop(o) else o
    }

    ghost function RefMachine(): State -> Outcome {
      (s: State) => RefBlock(s)
    }

    ghost function Reference(s: State, m: nat): Outcome {
      Iterate(RefMachine(), s, m)
    }
  }

  function DropTop(o: Outcome): Outcome {
    match o
    case Running(t) => if t.stack.Push? then Running(t.(stack := t.stack.below)) else Underflow
    case _ => o
  }

  // -------------------------------------------------------------- one block

  lemma BlockFacts(x: Compiled, i: nat) returns (rel: seq<int>)
    requires x.Sound() && i < Blocks(x.lay) && Adjacent(x.In(), x.lay, i)
    ensures var a, ip, out := x.In(), x.lay.starts[i], x.lay.outs[i];
      && ip < |a.c| && !SuperOp(a.c[ip])
      && rel == RelOf(a.ArmsAt(ip), out, x.pcs, |x.body|) && FitAll(rel)
      && DecodesTo(Sealed(x.body), out, a.Size(ip), Translation(a, ip, rel))
      && x.Map().Pc(ip) == out && x.Map().Pc(a.Next(ip)) == out + a.Size(ip)
  {
    var a, ip, out := x.In(), x.lay.starts[i], x.lay.outs[i];
    StartsReached(a, x.lay, i);
    WholeAt(a.c, 0, ip);
    rel := RelOf(a.ArmsAt(ip), out, x.pcs, |x.body|);
    forall j | 0 <= j < |rel| ensures FitsInt16(rel[j]) {
      RelocationIsExact(x.c, x.f, x.lay, x.pcs, x.body, i, j);
      ArmShape(a.c, ip, a.KindAt(ip), j);
    }
    assert BlockDone(a, x.lay, x.body, x.pcs, i);
    assert HasBytes(Sealed(x.body), out, a.Block(ip, rel));
    DecodeBlock(Sealed(x.body), out, a, ip, rel);
    BoundaryMapped(a, x.lay, x.pcs, x.body, i);
    BoundaryMapped(a, x.lay, x.pcs, x.body, i + 1);
  }

  /** Where control can be after a block. */
  ghost predicate Lands(a: Input, ip: nat, o: Outcome)
    requires a.BlockAt(ip)
  {
    o.Running? ==> o.s.pc == a.Next(ip) || exists j :: 0 <= j < |a.ArmsAt(ip)| && o.s.pc == a.ArmsAt(ip)[j].target
  }

  /** What one block must satisfy: the translated instruction gives the mapped
      outcome of the reference, and control lands on the next block or an arm. */
  ghost predicate Simulated(x: Compiled, s: State, i: Instr)
    requires s.pc >= 0 && x.In().BlockAt(s.pc)
  {
    SimulatedBy(x, s, i, x.RefBlock(s))
  }

  ghost predicate SimulatedBy(x: Compiled, s: State, i: Instr, r: Outcome)
    requires s.pc >= 0 && x.In().BlockAt(s.pc)
  {
    Exec(i, x.In().Size(s.pc), x.Map().State(s)) == x.Map().Outcome(r) && Lands(x.In(), s.pc, r)
  }

  lemma StraightBlock(x: Compiled, s: State)
    requires s.pc >= 0 && x.AtBlock(s.pc) && x.In().BlockAt(s.pc) && !SuperOp(x.c.code[s.pc])
    requires |x.In().ArmsAt(s.pc)| == 0 && !Unguarded(x.In().KindAt(s.pc)) && !Control(Decode(x.c.code, s.pc))
    requires x.Map().Pc(x.In().Next(s.pc)) == x.Map().Pc(s.pc) + x.In().Size(s.pc)
    ensures Simulated(x, s, Translation(x.In(), s.pc, []))
  {
    var a, p := x.In(), x.Map();
    var k := a.KindAt(s.pc);
    var o := Run(a.c, true, s, Work(k));
    if k in {LoadSmall, StoreSmall, Copy} {
      SingleBlockMoves(a, s.pc, s, p.State(s));
    } else {
      FusedBlockMoves(a, s, p.State(s));
    }
    MovedIsMapped(p, s, SrcLen(a.c, s.pc, k), o, a.Size(s.pc), Exec(Translation(a, s.pc, []), a.Size(s.pc), p.State(s)));
  }

  lemma DroppedMoves(s: State, o: Outcome, t: State, d: nat, v: Value, imm: int)
    requires t == s.(pc := t.pc, handlers := t.handlers) && v == AddValues(Get(s.locals, d), Int(imm))
    requires o == Running(s.(pc := s.pc + 16, locals := s.locals[d := v], stack := Push(v, s.stack)))
    ensures Moved(s, 16, DropTop(o), t, 5, Exec(IncrLocalImm(d, imm), 5, t))
  {
    StoredMoves(s, 16, DropTop(o), t, 5, Exec(IncrLocalImm(d, imm), 5, t), d, v);
  }

  lemma IncrementMoves(c: seq<Byte>, s: State, t: State, o: Outcome)
    requires 0 <= s.pc && IncrementPattern(c, s.pc) && t == s.(pc := t.pc, handlers := t.handlers)
    requires o == Run(c, true, s, 4)
    ensures Moved(s, 16, DropTop(o), t, 5, Exec(IncrLocalImm(Slot(c, s.pc + 1), I64(c, s.pc + 4)), 5, t))
  {
    RunIncrement(c, s);
    var d, imm := Slot(c, s.pc + 1), I64(c, s.pc + 4);
    DroppedMoves(s, o, t, d, AddValues(Get(s.locals, d), Int(imm)), imm);
  }

  /** A fused increment is the canonical increment without the value it leaves behind. */
  lemma IncrementBlock(x: Compiled, s: State)
    requires s.pc >= 0 && x.AtBlock(s.pc) && x.In().BlockAt(s.pc)
    requires |x.In().ArmsAt(s.pc)| == 0 && x.In().KindAt(s.pc) == Increment && !SuperOp(x.c.code[s.pc])
    requires x.Map().Pc(x.In().Next(s.pc)) == x.Map().Pc(s.pc) + x.In().Size(s.pc)
    ensures Simulated(x, s, Translation(x.In(), s.pc, []))
  {
    var p, o := x.Map(), Run(x.c.code, true, s, 4);
    IncrementMoves(x.c.code, s, p.State(s), o);
    var i := IncrLocalImm(Slot(x.c.code, s.pc + 1), I64(x.c.code, s.pc + 4));
    MovedIsMapped(p, s, 16, DropTop(o), 5, Exec(i, 5, p.State(s)));
  }

  lemma HeaderBlock(x: Compiled, s: State, rel: int)
    requires s.pc >= 0 && x.AtBlock(s.pc) && x.In().BlockAt(s.pc) && !SuperOp(x.c.code[s.pc])
    requires x.In().KindAt(s.pc) == LoopHeader && EmittedHeader(x.c.code, s.pc)
    requires x.Map().Pc(s.pc + 46) == x.Map().Pc(s.pc) + 9
    requires rel == x.Map().Pc(x.In().ArmsAt(s.pc)[0].target) - (x.Map().Pc(s.pc) + 9)
    ensures Simulated(x, s, Translation(x.In(), s.pc, [rel]))
  {
    var c := x.c.code;
    var o := Run(c, true, s, Work(LoopHeader));
    RunHeader(c, s);
    RefHeader(x, s, o);
    HeaderSimulated(x, s, rel, Slot(c, s.pc + 14), Slot(c, s.pc + 17), Slot(c, s.pc + 1), o, x.RefBlock(s));
  }

  lemma RefHeader(x: Compiled, s: State, o: Outcome)
    requires 0 <= s.pc < |x.c.code| && LoopPattern(x.c.code, s.pc)
    requires x.AtBlock(s.pc) && x.In().BlockAt(s.pc) && x.In().KindAt(s.pc) == LoopHeader
    requires o == Run(x.c.code, true, s, Work(LoopHeader))
    ensures x.RefBlock(s) == if HeaderStep(x.c.code, s.pc, s) == 0 then ZeroStep(s) else o
  {
  }

  /** The header once its run is known: only the three slots matter. */
  lemma HeaderSimulated(x: Compiled, s: State, rel: int, v: nat, stop: nat, step: nat, o: Outcome, r: Outcome)
    requires s.pc >= 0 && x.In().BlockAt(s.pc) && !SuperOp(x.c.code[s.pc]) && x.In().KindAt(s.pc) == LoopHeader
    requires r == if AsInt(Get(s.locals, step)) == 0 then ZeroStep(s) else o
    requires v == Slot(x.c.code, s.pc + 14) && stop == Slot(x.c.code, s.pc + 17) && step == Slot(x.c.code, s.pc + 1)
    requires x.Map().Pc(s.pc + 46) == x.Map().Pc(s.pc) + 9
    requires rel == x.Map().Pc(x.In().ArmsAt(s.pc)[0].target) - (x.Map().Pc(s.pc) + 9)
    requires var i, j, k := AsInt(Get(s.locals, v)), AsInt(Get(s.locals, stop)), AsInt(Get(s.locals, step));
      o == Running(s.(pc := if LoopActive(i, j, k) then s.pc + 46 else x.In().ArmsAt(s.pc)[0].target))
    ensures SimulatedBy(x, s, Translation(x.In(), s.pc, [rel]), r)
  {
    HeaderExec(x.Map(), s, v, stop, step, x.In().ArmsAt(s.pc)[0].target, rel, o);
  }

  lemma ControlLands(a: Input, s: State)
    requires s.pc >= 0 && a.BlockAt(s.pc) && !SuperOp(a.c[s.pc]) && a.KindAt(s.pc) == Copy
    requires Control(Decode(a.c, s.pc))
    ensures Lands(a, s.pc, Exec(Decode(a.c, s.pc), CanonLen(a.c[s.pc]), s))
  {
    var o, arms := Exec(Decode(a.c, s.pc), CanonLen(a.c[s.pc]), s), a.ArmsAt(s.pc);
    if o.Running? && o.s.pc != a.Next(s.pc) {
      if |arms| == 1 {
        assert o.s.pc == arms[0].target;
      } else {
        assert o.s.pc == arms[0].target || o.s.pc == arms[1].target || o.s.pc == arms[2].target;
      }
    }
  }

  lemma ControlBlock(x: Compiled, s: State, rel: seq<int>)
    requires s.pc >= 0 && x.AtBlock(s.pc) && x.In().BlockAt(s.pc) && !SuperOp(x.c.code[s.pc])
    requires x.In().KindAt(s.pc) == Copy && Control(Decode(x.c.code, s.pc))
    requires rel == RelOf(x.In().ArmsAt(s.pc), x.Map().Pc(s.pc), x.pcs, |x.body|)
    requires x.Map().Pc(x.In().Next(s.pc)) == x.Map().Pc(s.pc) + x.In().Size(s.pc)
    ensures Simulated(x, s, Translation(x.In(), s.pc, rel))
  {
    OneStep(x.c.code, s);
    ControlLands(x.In(), s);
    BranchIsMapped(x.Map(), Decode(x.c.code, s.pc), s, rel, x.In().Size(s.pc));
  }

  lemma NoArmsWithoutControl(a: Input, ip: nat)
    requires a.BlockAt(ip) && !SuperOp(a.c[ip]) && !Unguarded(a.KindAt(ip))
    ensures |a.ArmsAt(ip)| == 0 || (a.KindAt(ip) == Copy && Control(Decode(a.c, ip)))
    ensures Control(Decode(a.c, ip)) ==> a.KindAt(ip) == Copy
  {
  }

  lemma BlockCases(x: Compiled, s: State, rel: seq<int>)
    requires s.pc >= 0 && x.AtBlock(s.pc) && x.In().BlockAt(s.pc) && !SuperOp(x.c.code[s.pc])
    requires rel == RelOf(x.In().ArmsAt(s.pc), x.Map().Pc(s.pc), x.pcs, |x.body|)
    requires x.Map().Pc(x.In().Next(s.pc)) == x.Map().Pc(s.pc) + x.In().Size(s.pc)
    requires x.In().KindAt(s.pc) == LoopHeader ==> EmittedHeader(x.c.code, s.pc)
    ensures Simulated(x, s, Translation(x.In(), s.pc, rel))
  {
    var k := x.In().KindAt(s.pc);
    if k == LoopHeader {
      assert rel == [rel[0]];
      HeaderBlock(x, s, rel[0]);
    } else if k == Increment {
      assert rel == [];
      IncrementBlock(x, s);
    } else {
      NoArmsWithoutControl(x.In(), s.pc);
      if Control(Decode(x.c.code, s.pc)) {
        ControlBlock(x, s, rel);
      } else {
        assert rel == [];
        StraightBlock(x, s);
      }
    }
  }

  lemma StepDecodes(code: seq<Byte>, t: State, size: nat, i: Instr)
    requires t.pc >= 0 && DecodesTo(code, t.pc, size, i)
    ensures Step(code, false, t) == Exec(i, size, t)
  {
  }

  /** One optimized step is one block of the reference. */
  lemma BlockSimulated(x: Compiled, s: State)
    requires x.Sound() && x.AtBlock(s.pc)
    ensures s.pc >= 0 && x.In().BlockAt(s.pc)
    ensures Step(Sealed(x.body), false, x.Map().State(s)) == x.Map().Outcome(x.RefBlock(s))
    ensures Lands(x.In(), s.pc, x.RefBlock(s))
  {
    var i: nat :| i < Blocks(x.lay) && Adjacent(x.In(), x.lay, i) && x.lay.starts[i] == s.pc;
    var rel := BlockFacts(x, i);
    BlockCases(x, s, rel);
    StepDecodes(Sealed(x.body), x.Map().State(s), x.In().Size(s.pc), Translation(x.In(), s.pc, rel));
  }

  // -------------------------------------------------------------- whole runs

  lemma StartIsGood(x: Compiled, m: nat, s: State)
    requires x.Sound() && m < |x.lay.starts| && s.pc == x.lay.starts[m] && (s.pc == |x.c.code| ==> x.Sealing())
    ensures x.Good(s)
  {
    if m < Blocks(x.lay) {
      assert Adjacent(x.In(), x.lay, m);
    }
  }

  /** Control stays between blocks. */
  lemma GoodKept(x: Compiled, s: State)
    requires x.Sound() && x.AtBlock(s.pc) && x.RefBlock(s).Running?
    ensures x.Good(x.RefBlock(s).s)
  {
    var i: nat :| i < Blocks(x.lay) && Adjacent(x.In(), x.lay, i) && x.lay.starts[i] == s.pc;
    BlockSimulated(x, s);
    GoodAfter(x, s, i, x.RefBlock(s).s);
  }

  lemma GoodAfter(x: Compiled, s: State, i: nat, t: State)
    requires x.Sound() && x.AtBlock(s.pc) && i < Blocks(x.lay) && Adjacent(x.In(), x.lay, i) && x.lay.starts[i] == s.pc
    requires x.RefBlock(s) == Running(t) && Lands(x.In(), x.lay.starts[i], Running(t))
    ensures x.Good(t)
  {
    var a := x.In();
    StartsReached(a, x.lay, i);
    if t.pc == a.Next(s.pc) {
      GoodNext(x, s, i, t);
    } else {
      var j :| 0 <= j < |a.ArmsAt(s.pc)| && t.pc == a.ArmsAt(s.pc)[j].target;
      GoodArm(x, i, j, t);
    }
  }

  lemma GoodNext(x: Compiled, s: State, i: nat, t: State)
    requires x.Sound() && x.AtBlock(s.pc) && i < Blocks(x.lay) && Adjacent(x.In(), x.lay, i) && x.lay.starts[i] == s.pc
    requires x.RefBlock(s) == Running(t) && t.pc == x.lay.starts[i + 1]
    ensures x.Good(t)
  {
    if t.pc == |x.c.code| {
      EndIsSealed(x, s, i);
    }
    StartIsGood(x, i + 1, t);
  }

  /** Only a HALT appended by the optimizer lets control leave the last block forwards. */
  lemma EndIsSealed(x: Compiled, s: State, i: nat)
    requires x.Sound() && i < Blocks(x.lay) && Adjacent(x.In(), x.lay, i) && x.lay.starts[i] == s.pc
    requires x.AtBlock(s.pc) && x.RefBlock(s).Running? && x.lay.starts[i + 1] == |x.c.code|
    ensures x.Sealing()
  {
    if !x.Sealing() {
      LayoutOrder(x.In(), x.lay, i + 1, Blocks(x.lay));
      HaltDoesNotRun(x, s);
    }
  }

  lemma GoodArm(x: Compiled, i: nat, j: nat, t: State)
    requires x.Sound() && i < Blocks(x.lay) && Adjacent(x.In(), x.lay, i) && x.In().BlockAt(x.lay.starts[i])
    requires j < |x.In().ArmsAt(x.lay.starts[i])| && t.pc == x.In().ArmsAt(x.lay.starts[i])[j].target
    ensures x.Good(t)
  {
    ArmsReachBoundaries(x.c, x.f, x.lay, i, j);
    ArmCollected(x.In(), x.lay, i, j);
    var m: nat :| m < |x.lay.starts| && x.lay.starts[m] == t.pc;
    StartIsGood(x, m, t);
  }

  lemma HaltDoesNotRun(x: Compiled, s: State)
    requires s.pc >= 0 && x.AtBlock(s.pc) && x.In().BlockAt(s.pc) && x.c.code[s.pc] == OP_HALT
    ensures x.RefBlock(s) == Halted(s)
  {
    OneStep(x.c.code, s);
  }

  /** Past the last block the appended HALT stops the optimized run. */
  lemma EndSimulated(x: Compiled, s: State)
    requires x.Sound() && s.pc == |x.c.code| && x.Sealing()
    ensures Step(Sealed(x.body), false, x.Map().State(s)) == x.Map().Outcome(x.RefBlock(s)) == Halted(x.Map().State(s))
  {
    BoundaryMapped(x.In(), x.lay, x.pcs, x.body, Blocks(x.lay));
  }

  /** Main result: for every number of steps, from every state between blocks, the
      optimized run is the mapped reference run. */
  lemma {:induction false} OptimizedRunIsReference(x: Compiled, s: State, m: nat)
    requires x.Sound() && x.Good(s)
    ensures Run(Sealed(x.body), false, x.Map().State(s), m) == x.Map().Outcome(x.Reference(s, m))
    decreases m
  {
    var step := Machine(Sealed(x.body), false);
    if m > 0 {
      if s.pc == |x.c.code| {
        EndSimulated(x, s);
        assert step(x.Map().State(s)) == Halted(x.Map().State(s));
      } else {
        BlockSimulated(x, s);
        assert step(x.Map().State(s)) == x.Map().Outcome(x.RefBlock(s));
        if x.RefBlock(s).Running? {
          GoodKept(x, s);
          OptimizedRunIsReference(x, x.RefBlock(s).s, m - 1);
        }
      }
    }
  }

  // ------------------------------------- where the reference is the canonical run

  /** At this place a fused range loop is entered with step zero. */
  ghost predicate ZeroHeader(x: Compiled, s: State) {
    && x.AtBlock(s.pc) && 0 <= s.pc && x.In().BlockAt(s.pc)
    && x.In().KindAt(s.pc) == LoopHeader && HeaderStep(x.c.code, s.pc, s) == 0
  }

  lemma ReferenceBlockIff(x: Compiled, s: State)
    requires x.Sound() && x.AtBlock(s.pc)
    ensures s.pc >= 0 && x.In().BlockAt(s.pc)
    ensures x.RefBlock(s) == Run(x.c.code, true, s, Work(x.In().KindAt(s.pc)))
       <==> x.In().KindAt(s.pc) != Increment && !ZeroHeader(x, s)
  {
    BlockSimulated(x, s);
    var k := x.In().KindAt(s.pc);
    if k == Increment {
      RunIncrement(x.c.code, s);
      DropTopDiffers(Run(x.c.code, true, s, 4));
    } else if k == LoopHeader {
      RunHeader(x.c.code, s);
    }
  }

  /** Mapped outcomes still tell apart what the two exceptions change: whether the
      machine runs on, and what is on its stack. */
  lemma MapSeparates(p: Place, o: Outcome, r: Outcome)
    requires o.Running? && (r.ZeroStep? || (r.Running? && r.s.stack != o.s.stack))
    ensures p.Outcome(r) != p.Outcome(o)
  {
    assert p.State(o.s).stack == o.s.stack;
    assert r.Running? ==> p.State(r.s).stack == r.s.stack;
  }

  /** One optimized step does what the canonical instructions of its block do if and only
      if the block is neither a fused increment nor a loop header entered with step zero. */
  lemma BlockExactIff(x: Compiled, s: State)
    requires x.Sound() && x.AtBlock(s.pc)
    ensures s.pc >= 0 && x.In().BlockAt(s.pc)
    ensures var k := x.In().KindAt(s.pc);
      Step(Sealed(x.body), false, x.Map().State(s)) == x.Map().Outcome(Run(x.c.code, true, s, Work(k)))
      <==> k != Increment && !(k == LoopHeader && HeaderStep(x.c.code, s.pc, s) == 0)
  {
    BlockSimulated(x, s);
    ReferenceBlockIff(x, s);
    var k := x.In().KindAt(s.pc);
    var o := Run(x.c.code, true, s, Work(k));
    if k == Increment {
      RunIncrement(x.c.code, s);
      DropTopDiffers(o);
      MapSeparates(x.Map(), o, x.RefBlock(s));
    } else if ZeroHeader(x, s) {
      RunHeader(x.c.code, s);
      MapSeparates(x.Map(), o, x.RefBlock(s));
    }
  }

  lemma DropTopDiffers(o: Outcome)
    requires o.Running? && o.s.stack.Push?
    ensures DropTop(o) != o && DropTop(o).Running? && DropTop(o).s.stack != o.s.stack
  {
    assert o.s.stack.below != o.s.stack;
  }

  /** No increment was fused. */
  ghost predicate NoIncrement(x: Compiled) {
    forall pc: nat :: x.AtBlock(pc) && x.In().BlockAt(pc) ==> x.In().KindAt(pc) != Increment
  }

  lemma LocalsOffFusesNoIncrement(x: Compiled)
    ensures !x.f.locals ==> NoIncrement(x)
  {
  }

  /** Canonical instructions of the block at the current place. */
  ghost function BlockWork(x: Compiled): State -> nat {
    (s: State) => if !x.AtBlock(s.pc) || s.pc < 0 || !x.In().BlockAt(s.pc) then 1 else Work(x.In().KindAt(s.pc))
  }

  /** Canonical instructions executed during `m` blocks. */
  ghost function CanonSteps(x: Compiled, s: State, m: nat): nat {
    Total(x.RefMachine(), BlockWork(x), s, m)
  }

  ghost function GoodStates(x: Compiled): State -> bool {
    (s: State) => x.Good(s)
  }

  lemma EndHalts(x: Compiled, s: State)
    requires s.pc == |x.c.code|
    ensures Run(x.c.code, true, s, 1) == Halted(s)
  {
    OneStep(x.c.code, s);
  }

  ghost function ZeroHeaders(x: Compiled): State -> bool {
    (s: State) => ZeroHeader(x, s)
  }

  lemma BlocksRefine(x: Compiled)
    requires x.Sound() && NoIncrement(x)
    ensures Refines(x.RefMachine(), Machine(x.c.code, true), BlockWork(x), GoodStates(x), ZeroHeaders(x))
  {
    NotABlock(x);
    forall s: State | GoodStates(x)(s)
      ensures BlockWork(x)(s) >= 1
      ensures x.RefMachine()(s)
           == if ZeroHeaders(x)(s) then ZeroStep(s) else Iterate(Machine(x.c.code, true), s, BlockWork(x)(s))
      ensures x.RefMachine()(s).Running? ==> GoodStates(x)(x.RefMachine()(s).s)
    {
      if s.pc == |x.c.code| {
        EndHalts(x, s);
      } else {
        ReferenceBlockIff(x, s);
        if x.RefBlock(s).Running? {
          GoodKept(x, s);
        }
      }
    }
  }

  /** Inside a block the canonical machine is never at the start of a block. */
  lemma InsideIsNotGood(x: Compiled, s: State, k: nat)
    requires x.Sound() && x.Good(s) && 0 < k < BlockWork(x)(s) && Run(x.c.code, true, s, k).Running?
    ensures !x.Good(Run(x.c.code, true, s, k).s)
  {
    var u := Run(x.c.code, true, s, k).s;
    BlockIsStraight(x.In(), s.pc, Work(x.In().KindAt(s.pc)) - 1);
    StraightRun(x.c.code, s, Work(x.In().KindAt(s.pc)) - 1, x.In().Next(s.pc), k);
    var i: nat :| i < Blocks(x.lay) && Adjacent(x.In(), x.lay, i) && x.lay.starts[i] == s.pc;
    forall j: nat | j < |x.lay.starts| ensures x.lay.starts[j] != u.pc {
      if j <= i {
        LayoutOrder(x.In(), x.lay, j, i);
      } else {
        LayoutOrder(x.In(), x.lay, i + 1, j);
      }
    }
  }

  lemma NoBlockInside(x: Compiled)
    requires x.Sound()
    ensures NoneInside(Machine(x.c.code, true), BlockWork(x), GoodStates(x))
  {
    var step := Machine(x.c.code, true);
    forall s: State, k: nat {:trigger Iterate(step, s, k)}
      | GoodStates(x)(s) && 0 < k < BlockWork(x)(s) && Iterate(step, s, k).Running?
      ensures !GoodStates(x)(Iterate(step, s, k).s)
    {
      InsideIsNotGood(x, s, k);
    }
  }

  /** A canonical run from a state between blocks neither traps nor leaves the code. */
  lemma CanonicalRunIsSafe(x: Compiled, s: State, n: nat)
    requires x.Sound() && x.Good(s)
    ensures !Run(x.c.code, true, s, n).ZeroStep? && !Run(x.c.code, true, s, n).Wild?
  {
    if x.AtBlock(s.pc) {
      var i: nat :| i < Blocks(x.lay) && Adjacent(x.In(), x.lay, i) && x.lay.starts[i] == s.pc;
      StartsReached(x.In(), x.lay, i);
    } else {
      StartsReached(x.In(), x.lay, Blocks(x.lay));
    }
    CanonicalNeverTraps(x.c.code, s, n);
  }

  /** After `n` canonical steps from `s` the canonical machine is at a range loop with step zero. */
  ghost predicate MeetsZeroStep(x: Compiled, s: State, n: nat, u: State) {
    Run(x.c.code, true, s, n) == Running(u) && ZeroHeader(x, u)
  }

  /** The outcome `r` is the trap of such a loop, in the state in which the canonical machine reaches it. */
  ghost predicate TrappedThere(x: Compiled, s: State, r: Outcome) {
    exists n: nat, u: State :: MeetsZeroStep(x, s, n, u) && r == ZeroStep(u)
  }

  ghost predicate MeetsSome(x: Compiled, s: State) {
    exists n: nat, u: State :: MeetsZeroStep(x, s, n, u)
  }

  /** The reference is the canonical run, with an exact count of canonical steps, unless that
      run meets a range loop with step zero, where the reference stops. */
  lemma ReferenceIsCanonical(x: Compiled, s: State, m: nat)
    requires x.Sound() && x.Good(s) && NoIncrement(x)
    ensures var r, n := x.Reference(s, m), CanonSteps(x, s, m);
      if r.ZeroStep? then TrappedThere(x, s, r)
      else r == Run(x.c.code, true, s, n) && (r.Running? ==> n >= m)
  {
    BlocksRefine(x);
    RefinedRun(x.RefMachine(), Machine(x.c.code, true), BlockWork(x), GoodStates(x), ZeroHeaders(x), s, m);
    CanonicalRunIsSafe(x, s, CanonSteps(x, s, m));
    if x.Reference(s, m).ZeroStep? {
      var k: nat, u: State :| MeetsTrap(Machine(x.c.code, true), GoodStates(x), ZeroHeaders(x), s, k, u)
                              && x.Reference(s, m) == ZeroStep(u);
      assert MeetsZeroStep(x, s, k, u);
    }
  }

  /** Conversely, whenever the canonical run meets such a loop, the reference has trapped. */
  lemma ReferenceTraps(x: Compiled, s: State, n: nat, u: State)
    requires x.Sound() && x.Good(s) && NoIncrement(x) && MeetsZeroStep(x, s, n, u)
    ensures x.Reference(s, n + 1).ZeroStep?
  {
    BlocksRefine(x);
    NoBlockInside(x);
    assert MeetsTrap(Machine(x.c.code, true), GoodStates(x), ZeroHeaders(x), s, n, u);
    TrapIsMet(x.RefMachine(), Machine(x.c.code, true), BlockWork(x), GoodStates(x), ZeroHeaders(x), s, n, u);
  }

  lemma NotABlock(x: Compiled)
    requires x.Sound()
    ensures !x.AtBlock(|x.c.code|)
  {
    forall i: nat | i < Blocks(x.lay) && Adjacent(x.In(), x.lay, i) ensures x.lay.starts[i] != |x.c.code| {
    }
  }

  /** The trap of the optimized machine: the mapped state of a canonical one at such a loop. */
  ghost predicate TrappedMapped(x: Compiled, s: State, o: Outcome) {
    exists n: nat, u: State :: MeetsZeroStep(x, s, n, u) && o == ZeroStep(x.Map().State(u))
  }

  /** The mapped outcome of the canonical machine after `n` steps, at least `m` if it still runs. */
  ghost predicate CanonicalOutcome(x: Compiled, s: State, o: Outcome, m: nat, n: nat) {
    o == x.Map().Outcome(Run(x.c.code, true, s, n)) && (o.Running? ==> n >= m)
  }

  lemma TrapMapped(x: Compiled, s: State, r: Outcome)
    requires TrappedThere(x, s, r)
    ensures TrappedMapped(x, s, x.Map().Outcome(r))
  {
  }

  /** Fusion preserves meaning: after any number of optimized steps the machine is where the
      canonical one is after at least as many of its own; or it has trapped, and then the
      canonical machine reaches a range loop with step zero, in the very state of the trap. */
  lemma FusionPreservesMeaning(x: Compiled, s: State, m: nat)
    requires x.Sound() && x.Good(s) && NoIncrement(x)
    ensures var o := Run(Sealed(x.body), false, x.Map().State(s), m);
      if o.ZeroStep? then TrappedMapped(x, s, o) else exists n: nat :: CanonicalOutcome(x, s, o, m, n)
  {
    OptimizedRunIsReference(x, s, m);
    ReferenceIsCanonical(x, s, m);
    var r := x.Reference(s, m);
    if r.ZeroStep? {
      TrapMapped(x, s, r);
    } else {
      assert CanonicalOutcome(x, s, x.Map().Outcome(r), m, CanonSteps(x, s, m));
    }
  }

  lemma TrapReached(x: Compiled, s: State, n: nat, u: State, m: nat)
    requires x.Sound() && x.Good(s) && NoIncrement(x) && MeetsZeroStep(x, s, n, u) && m == n + 1
    ensures Run(Sealed(x.body), false, x.Map().State(s), m).ZeroStep?
  {
    OptimizedRunIsReference(x, s, m);
    ReferenceTraps(x, s, n, u);
    MapKeepsKind(x.Map(), x.Reference(s, m));
  }

  /** The optimized run traps if and only if the canonical run meets a range loop with step zero. */
  lemma TrapsIff(x: Compiled, s: State)
    requires x.Sound() && x.Good(s) && NoIncrement(x)
    ensures (exists m: nat :: Run(Sealed(x.body), false, x.Map().State(s), m).ZeroStep?) <==> MeetsSome(x, s)
  {
    if m: nat :| Run(Sealed(x.body), false, x.Map().State(s), m).ZeroStep? {
      FusionPreservesMeaning(x, s, m);
      assert MeetsSome(x, s);
    }
    if MeetsSome(x, s) {
      var n: nat, u: State :| MeetsZeroStep(x, s, n, u);
      TrapReached(x, s, n, u, n + 1);
    }
  }

  /** Two runs of one machine that have both stopped ended alike. */
  lemma BothStopped(step: State -> Outcome, s: State, m: nat, n: nat)
    requires !Iterate(step, s, m).Running? && !Iterate(step, s, n).Running?
    ensures Iterate(step, s, m) == Iterate(step, s, n)
  {
    if m <= n {
      StoppedStays(step, s, m, n);
    } else {
      StoppedStays(step, s, n, m);
    }
  }

  lemma ReferenceStops(x: Compiled, s: State, n: nat)
    requires x.Sound() && x.Good(s) && NoIncrement(x)
    requires !Run(x.c.code, true, s, n).Running?
    ensures var r := x.Reference(s, n);
      && !r.Running? && (r.ZeroStep? <==> MeetsSome(x, s))
      && (!r.ZeroStep? ==> r == Run(x.c.code, true, s, n))
  {
    ReferenceIsCanonical(x, s, n);
    var r := x.Reference(s, n);
    if !r.ZeroStep? {
      StoppedAgree(Machine(x.c.code, true), s, n, CanonSteps(x, s, n));
    }
    if MeetsSome(x, s) {
      var k: nat, u: State :| MeetsZeroStep(x, s, k, u);
      ReferenceTraps(x, s, k, u);
      BothStopped(x.RefMachine(), s, n, k + 1);
    }
  }

  lemma MapKeepsKind(p: Place, o: Outcome)
    ensures p.Outcome(o).Running? <==> o.Running?
    ensures p.Outcome(o).ZeroStep? <==> o.ZeroStep?
  {
  }

  /** A canonical run that stops is matched by an optimized run that stops no later, and with
      the same outcome if and only if the canonical run meets no range loop with step zero. */
  lemma StoppingRunsAgree(x: Compiled, s: State, n: nat)
    requires x.Sound() && x.Good(s) && NoIncrement(x)
    requires !Run(x.c.code, true, s, n).Running?
    ensures var o := Run(Sealed(x.body), false, x.Map().State(s), n);
      !o.Running? && (o == x.Map().Outcome(Run(x.c.code, true, s, n)) <==> !MeetsSome(x, s))
  {
    OptimizedRunIsReference(x, s, n);
    ReferenceStops(x, s, n);
    CanonicalRunIsSafe(x, s, n);
    MapKeepsKind(x.Map(), x.Reference(s, n));
    MapKeepsKind(x.Map(), Run(x.c.code, true, s, n));
  }

  // ------------------------------------------------------------ the sentinel

  /** Running off the end of the optimized code is caught exactly when a HALT was
      appended, that is when the last byte did not look like one. */
  lemma EndCaughtIff(x: Compiled, t: State)
    requires t.pc == |x.body|
    ensures Step(Sealed(x.body), false, t) == Halted(t) <==> x.Sealing()
    ensures !x.Sealing() ==> Step(Sealed(x.body), false, t) == Wild
  {
  }

  const OPERAND_FF: seq<Byte> := [OP_PUSH_BOOL, 0xFF]

  /** A two-byte chunk whose operand is 0xFF: the canonical run stops at the end,
      the optimized run reads past it. */
  lemma SentinelMissed(x: Compiled, s: State)
    requires x.c.code == OPERAND_FF && x.body == OPERAND_FF && s.pc == 0
    ensures Run(x.c.code, true, s, 2) == Halted(s.(pc := 2, stack := Push(Bool(true), s.stack)))
    ensures Run(Sealed(x.body), false, s, 2) == Wild
  {
    var t := s.(pc := 2, stack := Push(Bool(true), s.stack));
    assert Machine(x.c.code, true)(s) == Running(t) && Machine(x.c.code, true)(t) == Halted(t);
    assert Machine(Sealed(x.body), false)(s) == Running(t) && Machine(Sealed(x.body), false)(t) == Wild;
    assert Iterate(Machine(x.c.code, true), t, 1) == Halted(t);
    assert Iterate(Machine(Sealed(x.body), false), t, 1) == Wild;
  }

  /** The optimizer leaves that chunk as it is. */
  lemma OperandFFIsCopied(x: Compiled)
    requires x.c.code == OPERAND_FF && Translated(x.In(), x.lay, x.pcs, x.body)
    ensures x.body == OPERAND_FF
  {
    var a := x.In();
    LayoutOrder(a, x.lay, 0, Blocks(x.lay));
    assert Blocks(x.lay) > 0;
    assert Adjacent(a, x.lay, 0) && BlockDone(a, x.lay, x.body, x.pcs, 0);
    assert a.KindAt(0) == Copy && a.ArmsAt(0) == [];
    LayoutOrder(a, x.lay, 1, Blocks(x.lay));
    var e := a.Block(0, RelOf([], 0, x.pcs, |x.body|));
    assert e == x.c.code[0..2];
    assert x.body[0 + 0] == e[0] && x.body[0 + 1] == e[1];
  }
}
