/**
 The static verification pass over the optimized code: frames are made large enough
 for every local slot, so the handlers need no bounds checks.
 */
module Frames {
  import opened Bytes
  import opened Vm
  import opened Optimizer
  import opened Passes
  import opened Relocation
  import opened Simulation
  import opened Fusion

  const OP_GET_FIELD_IC := 0xC2
  const OP_SET_FIELD_IC := 0xC3
  const OP_FUSED_MUL_ADD_F64 := 0xCC
  const OP_FUSED_MUL_ADD_TAFPU := 0xCD

  /** The pass's own length table. */
  function ScanLen(op: int): (n: nat)
    ensures 1 <= n <= 21
  {
    if op == OP_GET_FIELD_IC || op == OP_SET_FIELD_IC then 7
    else if op == OP_FUSED_MUL_ADD_F64 || op == OP_FUSED_MUL_ADD_TAFPU then 9
    else OptLen(op)
  }

  /** Instructions that the two passes emit; for these the two length tables agree. */
  predicate Plain(op: int) {
    op != OP_GET_FIELD_IC && op != OP_SET_FIELD_IC && op != OP_FUSED_MUL_ADD_F64 && op != OP_FUSED_MUL_ADD_TAFPU
  }

  /** Up to four slot operands after the opcode. */
  function Words(code: seq<Byte>, ip: nat, n: nat): (w: seq<nat>)
    requires n <= 4 && ip + 2 * n < |code|
    ensures forall k :: k in w ==> k < WIDTH_16
  {
    if n == 1 then [Slot(code, ip + 1)]
    else if n == 2 then [Slot(code, ip + 1), Slot(code, ip + 3)]
    else if n == 3 then [Slot(code, ip + 1), Slot(code, ip + 3), Slot(code, ip + 5)]
    else if n == 4 then [Slot(code, ip + 1), Slot(code, ip + 3), Slot(code, ip + 5), Slot(code, ip + 7)]
    else []
  }

  /** How many slot operands follow the opcode. */
  function SlotOperands(op: int): (n: nat)
    ensures n <= 4
  {
    if op == OP_LOAD_LOCAL || op == OP_STORE_LOCAL || op == OP_STORE_LOCAL_POP || op == OP_INCR_LOCAL_IMM then 1
    else if op == OP_LOAD_LOAD_LOCAL then 2
    else if op == OP_FUSED_ADD_LOCAL_LOCAL_STORE || op == OP_LOOP_RANGE_FAST then 3
    else if op == OP_FUSED_MUL_ADD_I64 || op == OP_FUSED_MUL_ADD_F64 || op == OP_FUSED_MUL_ADD_TAFPU then 4
    else 0
  }

  /** The slots the pass notes at one position. */
  function ScanSlots(code: seq<Byte>, ip: nat): (w: seq<nat>)
    requires ip < |code|
    ensures forall k :: k in w ==> k < WIDTH_16
  {
    var op := code[ip];
    if OP_LOAD_LOCAL_0 <= op <= OP_LOAD_LOCAL_0 + 3 then [op - OP_LOAD_LOCAL_0]
    else if OP_STORE_LOCAL_0 <= op <= OP_STORE_LOCAL_0 + 3 then [op - OP_STORE_LOCAL_0]
    else if OP_STORE_LOCAL_0_POP <= op <= OP_STORE_LOCAL_0_POP + 3 then [op - OP_STORE_LOCAL_0_POP]
    else if ip + 2 * SlotOperands(op) < |code| then Words(code, ip, SlotOperands(op))
    else []
  }

  /** `b` is reached from `a` by the pass's steps. */
  predicate ScanSteps(code: seq<Byte>, a: nat, b: nat)
    decreases |code| - a
  {
    a == b || (a < |code| && ScanSteps(code, a + ScanLen(code[a]), b))
  }

  /** The last function, from number 1 up, that starts at or before `ip`; -1 is the top level. */
  function Owner(table: seq<nat>, ip: nat, n: nat): (f: int)
    requires n <= |table|
    ensures -1 <= f < n || f == -1
    decreases n
  {
    if n <= 1 then -1 else if ip >= table[n - 1] then n - 1 else Owner(table, ip, n - 1)
  }

  function Max(x: int, y: int): int {
    if x >= y then x else y
  }

  function MaxOf(slots: seq<nat>): (m: int)
    ensures m >= -1
    ensures forall k :: k in slots ==> k <= m
    ensures m >= 0 ==> m in slots
    decreases |slots|
  {
    if slots == [] then -1
    else
      var m := MaxOf(slots[..|slots| - 1]);
      assert slots == slots[..|slots| - 1] + [slots[|slots| - 1]];
      Max(m, slots[|slots| - 1])
  }

  lemma MaxOfNext(slots: seq<nat>, i: nat)
    requires i < |slots|
    ensures MaxOf(slots[..i + 1]) == Max(MaxOf(slots[..i]), slots[i])
  {
    assert slots[..i + 1][..i] == slots[..i];
  }

  /** The largest slot that function `f` uses from position `ip` on, -1 if none. */
  function MaxSlot(code: seq<Byte>, table: seq<nat>, f: int, ip: nat): (m: int)
    ensures m >= -1
    decreases |code| - ip
  {
    if ip >= |code| then -1
    else
      Max(if Owner(table, ip, |table|) == f then MaxOf(ScanSlots(code, ip)) else -1,
          MaxSlot(code, table, f, ip + ScanLen(code[ip])))
  }

  // ---------------------------------------------------------------- the pass

  method FindOwner(table: seq<nat>, ip: nat) returns (current: int)
    ensures current == Owner(table, ip, |table|)
  {
    current := -1;
    var f := 1;
    while f < |table|
      invariant 1 <= f && (|table| >= 1 ==> f <= |table|)
      invariant if |table| == 0 then current == -1 else current == Owner(table, ip, f)
    {
      if ip >= table[f] {
        current := f;
      }
      f := f + 1;
    }
  }

  /** The running maxima, one for the top level and one for each function. */
  class Maxima {
    var toplevel: int
    var functions: array<int>

    constructor (n: nat)
      ensures toplevel == -1 && fresh(functions) && functions.Length == n
      ensures forall f :: 0 <= f < n ==> functions[f] == -1
    {
      toplevel := -1;
      functions := new int[n](_ => -1);
    }

    function At(f: int): int
      requires -1 <= f < functions.Length
      reads this, functions
    {
      if f == -1 then toplevel else functions[f]
    }

    /** The top level's maximum, then the functions'. */
    ghost function All(): (s: seq<int>)
      reads this, functions
      ensures |s| == functions.Length + 1 && forall f :: -1 <= f < functions.Length ==> s[f + 1] == At(f)
    {
      [toplevel] + functions[..]
    }

    /** `update_slot` for every slot of one instruction. */
    method UpdateSlots(current: int, slots: seq<nat>)
      requires -1 <= current < functions.Length && At(current) >= -1
      modifies this`toplevel, functions
      ensures At(current) == Max(old(At(current)), MaxOf(slots))
      ensures forall f :: -1 <= f < functions.Length && f != current ==> At(f) == old(At(f))
    {
      for i := 0 to |slots|
        invariant functions == old(functions)
        invariant At(current) == Max(old(At(current)), MaxOf(slots[..i]))
        invariant forall f :: -1 <= f < functions.Length && f != current ==> At(f) == old(At(f))
      {
        MaxOfNext(slots, i);
        if current >= 0 {
          if slots[i] > functions[current] {
            functions[current] := slots[i];
          }
        } else {
          if slots[i] > toplevel {
            toplevel := slots[i];
          }
        }
      }
      assert slots[..|slots|] == slots;
    }
  }

  /** What is noted so far and what the rest of the code uses make up the largest slot. */
  predicate Noted(code: seq<Byte>, table: seq<nat>, f: int, ip: nat, max: int) {
    max >= -1 && Max(max, MaxSlot(code, table, f, ip)) == MaxSlot(code, table, f, 0)
  }

  lemma NoteOne(code: seq<Byte>, table: seq<nat>, f: int, ip: nat, max: int, next: int)
    requires ip < |code| && Noted(code, table, f, ip, max)
    requires next == if f == Owner(table, ip, |table|) then Max(max, MaxOf(ScanSlots(code, ip))) else max
    ensures Noted(code, table, f, ip + ScanLen(code[ip]), next)
  {
  }

  /** Scans the whole code for the largest slot of every function. */
  method ScanMaxima(code: seq<Byte>, table: seq<nat>) returns (m: Maxima)
    ensures fresh(m) && fresh(m.functions) && m.functions.Length == |table|
    ensures forall f :: -1 <= f < |table| ==> m.At(f) == MaxSlot(code, table, f, 0)
  {
    m := new Maxima(|table|);
    var ip := 0;
    while ip < |code|
      invariant fresh(m) && fresh(m.functions) && m.functions.Length == |table|
      invariant forall f {:trigger m.At(f)} :: -1 <= f < |table| ==> Noted(code, table, f, ip, m.At(f))
      decreases |code| - ip
    {
      var current := FindOwner(table, ip);
      ghost var was := m.All();
      assert Noted(code, table, current, ip, m.At(current));
      m.UpdateSlots(current, ScanSlots(code, ip));
      forall f | -1 <= f < |table| ensures Noted(code, table, f, ip + ScanLen(code[ip]), m.At(f)) {
        NoteOne(code, table, f, ip, was[f + 1], m.At(f));
      }
      ip := ip + ScanLen(code[ip]);
    }
  }

  const WIDTH_16 := 0x1_0000

  /** The size a frame is raised to. */
  function Raised(size: nat, needed: nat): nat {
    if needed > size then needed else size
  }

  /** Eight more than the largest slot takes, as a 64-bit and as a 16-bit number. */
  function Needed(max: int): nat {
    if max >= 0 then max + 9 else 0
  }

  function Needed16(max: int): nat {
    Needed(max) % WIDTH_16
  }

  /** Declared frame sizes, extended by the default of 32. */
  function Declared(sizes: seq<nat>, n: nat): (r: seq<nat>)
    ensures |r| == if |sizes| < n then n else |sizes|
  {
    if |sizes| < n then sizes + seq(n - |sizes|, _ => 32) else sizes
  }

  method VerifyFrames(code: seq<Byte>, table: seq<nat>, sizes: seq<nat>, toplevel: nat)
    returns (frames: seq<nat>, top: nat)
    ensures |frames| == |Declared(sizes, |table|)|
    ensures forall f :: 0 <= f < |table| ==>
      frames[f] == Raised(Declared(sizes, |table|)[f], Needed16(MaxSlot(code, table, f, 0)))
    ensures top == Raised(if toplevel < 32 then 32 else toplevel, Needed(MaxSlot(code, table, -1, 0)))
  {
    frames := if |sizes| < |table| then sizes + seq(|table| - |sizes|, _ => 32) else sizes;
    top := if toplevel < 32 then 32 else toplevel;
    var m := ScanMaxima(code, table);
    assert m.At(-1) == MaxSlot(code, table, -1, 0);
    if m.toplevel >= 0 {
      var needed := m.toplevel + 1 + 8;
      if needed > top {
        top := needed;
      }
    }
    ghost var declared := frames;
    var f := 0;
    while f < |table|
      invariant 0 <= f <= |table| && |frames| == |declared|
      invariant forall k :: f <= k < |table| ==> frames[k] == declared[k]
      invariant forall k :: 0 <= k < f ==> frames[k] == Raised(declared[k], Needed16(MaxSlot(code, table, k, 0)))
    {
      frames := frames[f := RaisedFrame(m, f, frames[f], MaxSlot(code, table, f, 0))];
      f := f + 1;
    }
  }

  /** The last loop's body: the 16-bit size needed, if it is more than the declared one. */
  function RaisedFrame(m: Maxima, f: nat, size: nat, ghost max: int): (r: nat)
    requires f < m.functions.Length && m.At(f) == max >= -1
    reads m, m.functions
    ensures r == Raised(size, Needed16(max))
  {
    if m.functions[f] >= 0 then
      var needed := (m.functions[f] + 1 + 8) % WIDTH_16;
      if needed > size then needed else size
    else size
  }

  /** A position belongs to the last function, not counting number 0, that starts at or before it, and to
      the top level when there is none. */
  lemma {:induction false} OwnerIs(table: seq<nat>, ip: nat, n: nat)
    requires n <= |table|
    ensures var f := Owner(table, ip, n);
      && (f == -1 || (1 <= f < n && table[f] <= ip))
      && forall g :: 1 <= g < n && g > f ==> table[g] > ip
    decreases n
  {
    if n > 1 && ip < table[n - 1] {
      OwnerIs(table, ip, n - 1);
    }
  }

  /** A frame whose largest slot is `max` is as declared, or has eight slots more than up to that one,
      whichever is more; from slot 65527 on the need is lost with its seventeenth bit. */
  lemma FrameIs(declared: nat, max: int)
    requires -1 <= max < 0x1_0000
    ensures var frame := Raised(declared, Needed16(max));
      if max == -1 then frame == declared
      else frame >= declared && (max + 9 < 0x1_0000 ==> frame >= max + 9 && (frame == declared || frame == max + 9))
           && (max + 9 >= 0x1_0000 ==> frame >= max + 9 - 0x1_0000 && (frame == declared || frame == max + 9 - 0x1_0000))
    ensures Raised(declared, Needed(max)) >= max + 9 || max == -1
    ensures Raised(declared, Needed(max)) == declared || (max >= 0 && Raised(declared, Needed(max)) == max + 9)
  {
  }

  /** The declared size of a function, or 32 when none is. */
  lemma DeclaredIs(sizes: seq<nat>, n: nat, f: nat)
    requires f < n || f < |sizes|
    ensures f < |Declared(sizes, n)| && Declared(sizes, n)[f] == if f < |sizes| then sizes[f] else 32
  {
  }

  // ------------------------------------------------------- what it guarantees

  /** Every slot noted anywhere in the code of `f` lies inside a frame of `size` slots. */
  ghost predicate Covered(code: seq<Byte>, table: seq<nat>, f: int, size: nat) {
    forall ip: nat, k: nat {:trigger ScanSteps(code, 0, ip), k in ScanSlots(code, ip)} ::
      ip < |code| && ScanSteps(code, 0, ip) && Owner(table, ip, |table|) == f && k in ScanSlots(code, ip) ==> k < size
  }

  lemma {:induction false} MaxSlotBounds(code: seq<Byte>, table: seq<nat>, f: int, a: nat, ip: nat, k: nat)
    requires ip < |code| && ScanSteps(code, a, ip) && Owner(table, ip, |table|) == f && k in ScanSlots(code, ip)
    ensures k <= MaxSlot(code, table, f, a)
    decreases |code| - a
  {
    if a != ip {
      MaxSlotBounds(code, table, f, a + ScanLen(code[a]), ip, k);
    }
  }

  lemma {:induction false} MaxSlotAttained(code: seq<Byte>, table: seq<nat>, f: int, a: nat) returns (ip: nat)
    requires MaxSlot(code, table, f, a) >= 0
    ensures ip < |code| && ScanSteps(code, a, ip) && Owner(table, ip, |table|) == f
    ensures MaxSlot(code, table, f, a) in ScanSlots(code, ip)
    decreases |code| - a
  {
    if Owner(table, a, |table|) == f && MaxOf(ScanSlots(code, a)) == MaxSlot(code, table, f, a) {
      ip := a;
    } else {
      ip := MaxSlotAttained(code, table, f, a + ScanLen(code[a]));
    }
  }

  lemma CoveredIffMax(code: seq<Byte>, table: seq<nat>, f: int, size: nat)
    ensures Covered(code, table, f, size) <==> MaxSlot(code, table, f, 0) < size
  {
    var m := MaxSlot(code, table, f, 0);
    if m < size {
      forall ip: nat, k: nat
        | ip < |code| && ScanSteps(code, 0, ip) && Owner(table, ip, |table|) == f && k in ScanSlots(code, ip)
        ensures k < size
      {
        MaxSlotBounds(code, table, f, 0, ip, k);
      }
    } else {
      var ip := MaxSlotAttained(code, table, f, 0);
      assert ScanSteps(code, 0, ip) && m in ScanSlots(code, ip);
    }
  }

  /** The raised frame of a function covers all its slots if and only if the needed size
      fits in 16 bits or the declared size was large enough anyway. */
  lemma FramesCoverIff(code: seq<Byte>, table: seq<nat>, f: int, declared: nat)
    requires MaxSlot(code, table, f, 0) < WIDTH_16
    ensures var m := MaxSlot(code, table, f, 0);
      Covered(code, table, f, Raised(declared, Needed16(m))) <==> m + 9 < WIDTH_16 || m < declared
  {
    CoveredIffMax(code, table, f, Raised(declared, Needed16(MaxSlot(code, table, f, 0))));
  }

  lemma MaxSlotFitsWord(code: seq<Byte>, table: seq<nat>, f: int)
    ensures MaxSlot(code, table, f, 0) < WIDTH_16
  {
    if MaxSlot(code, table, f, 0) >= 0 {
      var ip := MaxSlotAttained(code, table, f, 0);
    }
  }

  /** All frames cover the slots of their code. */
  ghost predicate AllCovered(code: seq<Byte>, table: seq<nat>, frames: seq<nat>, top: nat)
    requires |table| <= |frames|
  {
    Covered(code, table, -1, top) && forall f :: 0 <= f < |table| ==> Covered(code, table, f, frames[f])
  }

  /** The frames that the pass returns cover everything if and only if no function needs
      more than 16 bits can say beyond what it had declared. */
  lemma VerifiedFramesCoverIff(code: seq<Byte>, table: seq<nat>, declared: seq<nat>, toplevel: nat, frames: seq<nat>, top: nat)
    requires |table| <= |declared| == |frames|
    requires forall f :: 0 <= f < |table| ==> frames[f] == Raised(declared[f], Needed16(MaxSlot(code, table, f, 0)))
    requires top == Raised(toplevel, Needed(MaxSlot(code, table, -1, 0)))
    ensures AllCovered(code, table, frames, top) <==>
            forall f :: 0 <= f < |table| ==>
              MaxSlot(code, table, f, 0) + 9 < WIDTH_16 || MaxSlot(code, table, f, 0) < declared[f]
  {
    MaxSlotFitsWord(code, table, -1);
    CoveredIffMax(code, table, -1, top);
    forall f | 0 <= f < |table|
      ensures Covered(code, table, f, frames[f]) <==>
              MaxSlot(code, table, f, 0) + 9 < WIDTH_16 || MaxSlot(code, table, f, 0) < declared[f]
    {
      MaxSlotFitsWord(code, table, f);
      FramesCoverIff(code, table, f, declared[f]);
    }
  }

  // -------------------------------------- what an instruction reads and writes

  /** The slots an instruction uses. */
  function Touched(i: Instr): seq<nat> {
    match i
    case LoadLocal(k) => [k]
    case StoreLocal(k) => [k]
    case IncrLocalImm(k, _) => [k]
    case LoopRangeFast(v, stop, step, _) => [v, stop, step]
    case StoreLocalPop(k) => [k]
    case LoadLoadLocal(a, b) => [a, b]
    case FusedAddStore(a, b, d) => [a, b, d]
    case FusedMulAddStore(a, b, c, d) => [a, b, c, d]
    case _ => []
  }

  function SetSlot(s: State, k: nat, v: Value): State {
    s.(locals := s.locals[k := v])
  }

  function SetSlotAfter(o: Outcome, k: nat, v: Value): Outcome {
    match o
    case Running(s) => Running(SetSlot(s, k, v))
    case Halted(s) => Halted(SetSlot(s, k, v))
    case Yield(s, op, operands) => Yield(SetSlot(s, k, v), op, operands)
    case ZeroStep(s) => ZeroStep(SetSlot(s, k, v))
    case _ => o
  }

  /** The instructions that store into a local slot. */
  predicate Stores(i: Instr) {
    i.StoreLocal? || i.IncrLocalImm? || i.StoreLocalPop? || i.FusedAddStore? || i.FusedMulAddStore?
  }

  /** Every other slot is neither read nor written: changing it before or after is the same. */
  lemma OtherSlotsUntouched(i: Instr, len: nat, s: State, k: nat, v: Value)
    requires k !in Touched(i)
    ensures Exec(i, len, SetSlot(s, k, v)) == SetSlotAfter(Exec(i, len, s), k, v)
  {
    if Stores(i) {
      StoresCommute(i, len, s, k, v);
    } else {
      OthersCommute(i, len, s, k, v);
    }
  }

  lemma OthersCommute(i: Instr, len: nat, s: State, k: nat, v: Value)
    requires k !in Touched(i) && !Stores(i)
    ensures Exec(i, len, SetSlot(s, k, v)) == SetSlotAfter(Exec(i, len, s), k, v)
  {
  }

  lemma StoresCommute(i: Instr, len: nat, s: State, k: nat, v: Value)
    requires k !in Touched(i) && Stores(i)
    ensures Exec(i, len, SetSlot(s, k, v)) == SetSlotAfter(Exec(i, len, s), k, v)
  {
    match i
    case StoreLocal(d) => if s.stack.Push? { Commute(s, k, v, d, s.stack.top); }
    case IncrLocalImm(d, imm) => Commute(s, k, v, d, AddValues(Get(s.locals, d), Int(imm)));
    case StoreLocalPop(d) => if s.stack.Push? { Commute(s, k, v, d, s.stack.top); }
    case FusedAddStore(a, b, d) => Commute(s, k, v, d, AddValues(Get(s.locals, a), Get(s.locals, b)));
    case FusedMulAddStore(a, b, c, d) =>
      Commute(s, k, v, d, FusedMulAdd(Get(s.locals, a), Get(s.locals, b), Get(s.locals, c)));
  }

  lemma Commute(s: State, k: nat, v: Value, d: nat, w: Value)
    requires k != d
    ensures s.locals[k := v][d := w] == s.locals[d := w][k := v]
  {
  }

  /** Ones in these slots, and a value to store. */
  function Ones(slots: seq<nat>): State {
    State(0, Push(Int(5), Empty), map k | k in slots :: Int(1), map[], [])
  }

  /** Conversely, changing a slot that it names does show, before or after, in some state; of the three slots
      of a range loop this is said of the step, because a loop may go to the same place either way. */
  lemma NamedSlotsMatter(i: Instr, len: nat, k: nat)
    requires k in Touched(i) && (i.LoopRangeFast? ==> k == i.stepSlot)
    ensures var s := Ones(Touched(i));
      Exec(i, len, SetSlot(s, k, Bool(false))) != SetSlotAfter(Exec(i, len, s), k, Bool(false))
  {
    if i.FusedMulAddStore? {
      MulAddShows(i, len, k);
    } else if Stores(i) {
      StoreShows(i, len, k);
    } else {
      LoadShows(i, len, k);
    }
  }

  /** The slot that an instruction stores into. */
  function StoredSlot(i: Instr): nat
    requires Stores(i)
  {
    match i
    case FusedAddStore(_, _, d) => d
    case FusedMulAddStore(_, _, _, d) => d
    case _ => i.slot
  }

  lemma StoresInt(i: Instr, len: nat, s: State)
    requires Stores(i) && s.stack == Push(Int(5), Empty)
    ensures Exec(i, len, s).Running? && Get(Exec(i, len, s).s.locals, StoredSlot(i)).Int?
    ensures i.FusedAddStore? ==>
      Get(Exec(i, len, s).s.locals, i.d) == AddValues(Get(s.locals, i.a), Get(s.locals, i.b))
  {
    if i.FusedMulAddStore? {
      FusedMulAddIsMulThenAdd(Get(s.locals, i.a), Get(s.locals, i.b), Get(s.locals, i.c));
    }
  }

  lemma StoreShows(i: Instr, len: nat, k: nat)
    requires Stores(i) && !i.FusedMulAddStore? && k in Touched(i)
    ensures var s := Ones(Touched(i));
      Exec(i, len, SetSlot(s, k, Bool(false))) != SetSlotAfter(Exec(i, len, s), k, Bool(false))
  {
    var s := Ones(Touched(i));
    StoresInt(i, len, s);
    StoresInt(i, len, SetSlot(s, k, Bool(false)));
    if k == StoredSlot(i) {
      assert Get(SetSlotAfter(Exec(i, len, s), k, Bool(false)).s.locals, k) == Bool(false);
    } else {
      assert Get(SetSlotAfter(Exec(i, len, s), k, Bool(false)).s.locals, i.d) == Int(2);
    }
  }

  lemma LoadShows(i: Instr, len: nat, k: nat)
    requires !Stores(i) && k in Touched(i) && (i.LoopRangeFast? ==> k == i.stepSlot)
    ensures var s := Ones(Touched(i));
      Exec(i, len, SetSlot(s, k, Bool(false))) != SetSlotAfter(Exec(i, len, s), k, Bool(false))
  {
  }

  lemma MulAddShows(i: Instr, len: nat, k: nat)
    requires i.FusedMulAddStore? && k in Touched(i)
    ensures var s := Ones(Touched(i));
      Exec(i, len, SetSlot(s, k, Bool(false))) != SetSlotAfter(Exec(i, len, s), k, Bool(false))
  {
    var s := Ones(Touched(i));
    var t := SetSlot(s, k, Bool(false));
    var x, y, z := Get(t.locals, i.a), Get(t.locals, i.b), Get(t.locals, i.c);
    MulAddOfOnes(Int(1), Int(1), Int(1));
    MulAddOfOnes(x, y, z);
    MulAddStores(i, len, s);
    MulAddStores(i, len, t);
    assert Get(SetSlotAfter(Exec(i, len, s), k, Bool(false)).s.locals, i.d) == if k == i.d then Bool(false) else Int(2);
  }

  lemma MulAddStores(i: Instr, len: nat, s: State)
    requires i.FusedMulAddStore?
    ensures Exec(i, len, s).Running?
    ensures Exec(i, len, s).s.locals == s.locals[i.d := FusedMulAdd(Get(s.locals, i.a), Get(s.locals, i.b), Get(s.locals, i.c))]
  {
  }

  lemma MulAddOfOnes(x: Value, y: Value, z: Value)
    requires x in {Int(1), Bool(false)} && y in {Int(1), Bool(false)} && z in {Int(1), Bool(false)}
    ensures FusedMulAdd(x, y, z).Int?
    ensures FusedMulAdd(x, y, z) == Int(2) <==> x == Int(1) && y == Int(1) && z == Int(1)
  {
    FusedMulAddIsMulThenAdd(x, y, z);
  }

  /** For a whole plain instruction, the pass notes exactly the slots it uses. */
  lemma ScanNotesTouched(code: seq<Byte>, ip: nat)
    requires ip < |code| && ip + OptLen(code[ip]) <= |code| && Plain(code[ip])
    ensures ScanSlots(code, ip) == Touched(Decode(code, ip))
  {
  }

  // ------------------------------------------------------------- whole runs

  /** The first byte of every translated block is a plain opcode. */
  lemma BlocksArePlain(a: Input, ip: nat, rel: seq<int>)
    requires a.BlockAt(ip) && !SuperOp(a.c[ip]) && |rel| == |a.ArmsAt(ip)| && |a.Block(ip, rel)| > 0
    ensures Plain(a.Block(ip, rel)[0])
  {
  }

  /** The pass steps from block to block. */
  lemma {:induction false} ScanVisitsBlocks(x: Compiled, i: nat)
    requires x.Sound() && i <= Blocks(x.lay)
    ensures i < |x.lay.outs| && ScanSteps(x.body, 0, x.lay.outs[i])
    decreases i
  {
    if i > 0 {
      ScanVisitsBlocks(x, i - 1);
      BlockPlace(x, i - 1);
      ScanStepsOn(x.body, 0, x.lay.outs[i - 1]);
    }
  }

  lemma {:induction false} ScanStepsOn(code: seq<Byte>, a: nat, b: nat)
    requires ScanSteps(code, a, b) && b < |code|
    ensures ScanSteps(code, a, b + ScanLen(code[b]))
    decreases |code| - a
  {
    if a != b {
      ScanStepsOn(code, a + ScanLen(code[a]), b);
    }
  }

  /** A block's instruction stands whole in the body, is plain, and decodes as in the sealed code. */
  lemma BlockPlace(x: Compiled, i: nat)
    requires x.Sound() && i < Blocks(x.lay)
    ensures i + 1 < |x.lay.outs| && x.lay.outs[i] < |x.body| && Plain(x.body[x.lay.outs[i]])
    ensures x.lay.outs[i] + OptLen(x.body[x.lay.outs[i]]) == x.lay.outs[i + 1] <= |x.body|
    ensures Decode(x.body, x.lay.outs[i]) == Decode(Sealed(x.body), x.lay.outs[i])
  {
    var a, ip, out := x.In(), x.lay.starts[i], x.lay.outs[i];
    assert Adjacent(a, x.lay, i);
    var rel := BlockFacts(x, i);
    var e := a.Block(ip, rel);
    LayoutOrder(a, x.lay, i + 1, Blocks(x.lay));
    assert BlockDone(a, x.lay, x.body, x.pcs, i);
    assert x.body[out + 0] == e[0];
    BlocksArePlain(a, ip, rel);
    SealedDecodes(x.body, out);
  }

  lemma SealedDecodes(body: seq<Byte>, out: nat)
    requires out < |body| && out + OptLen(body[out]) <= |body|
    ensures Decode(body, out) == Decode(Sealed(body), out)
  {
    var len := OptLen(body[out]);
    assert Sealed(body)[out] == body[out];
    assert Sealed(body)[out + 1..out + len] == body[out + 1..out + len];
    if body[out] == OP_PUSH_INT {
      assert Sealed(body)[out + 1..out + 9] == body[out + 1..out + 9];
    }
  }

  /** The frame a position runs in, as the pass sized it. */
  function FrameAt(table: seq<nat>, frames: seq<nat>, top: nat, ip: nat): nat
    requires |table| <= |frames|
  {
    var f := Owner(table, ip, |table|);
    if f == -1 then top else frames[f]
  }

  /** Between blocks, the next optimized instruction uses only slots of its frame. */
  lemma SlotsInFrame(x: Compiled, s: State, table: seq<nat>, frames: seq<nat>, top: nat)
    requires x.Sound() && x.AtBlock(s.pc) && |table| <= |frames| && AllCovered(x.body, table, frames, top)
    ensures var ip := x.Map().Pc(s.pc);
      0 <= ip < |x.body| && ip + OptLen(x.body[ip]) <= |x.body| &&
      forall k :: k in Touched(Decode(Sealed(x.body), ip)) ==> k < FrameAt(table, frames, top, ip)
  {
    var i: nat :| i < Blocks(x.lay) && Adjacent(x.In(), x.lay, i) && x.lay.starts[i] == s.pc;
    BoundaryMapped(x.In(), x.lay, x.pcs, x.body, i);
    BlockPlace(x, i);
    ScanVisitsBlocks(x, i);
    var ip := x.lay.outs[i];
    ScanNotesTouched(x.body, ip);
    forall k | k in Touched(Decode(Sealed(x.body), ip)) ensures k < FrameAt(table, frames, top, ip) {
      assert ScanSteps(x.body, 0, ip) && k in ScanSlots(x.body, ip);
    }
  }

  /** A run that starts between blocks is between blocks after every block. */
  lemma {:induction false} GoodForever(x: Compiled, s: State, m: nat)
    requires x.Sound() && x.Good(s)
    ensures x.Reference(s, m).Running? ==> x.Good(x.Reference(s, m).s)
    decreases m
  {
    if m > 0 && s.pc != |x.c.code| && x.RefBlock(s).Running? {
      GoodKept(x, s);
      GoodForever(x, x.RefBlock(s).s, m - 1);
    }
  }

  /** In every run, whatever the optimized machine is about to execute uses only slots of
      the frame that the pass sized for it. */
  lemma RunsStayInFrames(x: Compiled, s: State, m: nat, table: seq<nat>, frames: seq<nat>, top: nat)
    requires x.Sound() && x.Good(s) && |table| <= |frames| && AllCovered(x.body, table, frames, top)
    ensures var o := Run(Sealed(x.body), false, x.Map().State(s), m);
      o.Running? && o.s.pc != |x.body| ==>
        0 <= o.s.pc < |x.body| && o.s.pc + OptLen(x.body[o.s.pc]) <= |x.body| &&
        forall k :: k in Touched(Decode(Sealed(x.body), o.s.pc)) ==> k < FrameAt(table, frames, top, o.s.pc)
  {
    OptimizedRunIsReference(x, s, m);
    GoodForever(x, s, m);
    var r := x.Reference(s, m);
    if r.Running? && x.AtBlock(r.s.pc) {
      SlotsInFrame(x, r.s, table, frames, top);
    } else if r.Running? {
      BoundaryMapped(x.In(), x.lay, x.pcs, x.body, Blocks(x.lay));
    }
  }
}
