/**
 Lowering calls and returns in place: a fast call carries the entry and the frame size
 that the ordinary call looks up.
 */
module FastCalls {
  import opened Bytes
  import opened Vm
  import opened Optimizer
  import opened Frames

  /** The frame size of a function, with the default and the room for its arguments. */
  function FrameSize(sizes: seq<nat>, fn: nat, minNeeded: nat): nat {
    var size := if fn < |sizes| && sizes[fn] > 0 then sizes[fn] else 32;
    if size < minNeeded + 8 then minNeeded + 8 else size
  }

  /** What a call pushes: where it goes, how many arguments it takes, its frame and its return. */
  datatype Call = NoCall | BadIndex | Call(entry: nat, argc: nat, frame: nat, back: nat)

  function Called(code: seq<Byte>, table: seq<nat>, sizes: seq<nat>, ip: nat): Call
    requires ip < |code|
  {
    if ip + 4 > |code| then NoCall
    else if code[ip] == OP_CALL then
      var fn, argc := Slot(code, ip + 1), code[ip + 3];
      if table == [] then Call(fn, argc, FrameSize(sizes, fn, argc), ip + 4)
      else if fn >= |table| then BadIndex
      else Call(table[fn], argc, FrameSize(sizes, fn, argc), ip + 4)
    else if code[ip] == OP_CALL_FAST_0 then Call(Slot(code, ip + 1), 0, code[ip + 3], ip + 4)
    else if code[ip] == OP_CALL_FAST_1 then Call(Slot(code, ip + 1), 1, code[ip + 3], ip + 4)
    else NoCall
  }

  predicate Returns(op: int) {
    op == OP_RET || op == OP_RET_FAST
  }

  /** A call whose entry and frame fit the short operands. */
  predicate Lowerable(code: seq<Byte>, table: seq<nat>, sizes: seq<nat>, ip: nat) {
    && ip + 3 < |code| && code[ip] == OP_CALL && Slot(code, ip + 1) < |table| && code[ip + 3] <= 1
    && table[Slot(code, ip + 1)] <= 0xFFFF && FrameSize(sizes, Slot(code, ip + 1), code[ip + 3]) <= 0xFF
  }

  function LowerOne(code: seq<Byte>, table: seq<nat>, sizes: seq<nat>, ip: nat): (r: seq<Byte>)
    requires ip < |code|
    ensures |r| == |code|
  {
    if Lowerable(code, table, sizes, ip) then
      var entry, argc := table[Slot(code, ip + 1)], code[ip + 3];
      code[ip := if argc == 0 then OP_CALL_FAST_0 else OP_CALL_FAST_1][ip + 1 := Lo(entry)][ip + 2 := Hi(entry)]
          [ip + 3 := FrameSize(sizes, Slot(code, ip + 1), argc)]
    else if code[ip] == OP_RET then code[ip := OP_RET_FAST]
    else code
  }

  /** The pass from `ip` on. */
  function Lowered(code: seq<Byte>, table: seq<nat>, sizes: seq<nat>, ip: nat): (r: seq<Byte>)
    ensures |r| == |code|
    decreases |code| - ip
  {
    if ip >= |code| then code
    else
      var r := LowerOne(code, table, sizes, ip);
      Lowered(r, table, sizes, ip + ScanLen(r[ip]))
  }

  lemma LoweredFrom(code: seq<Byte>, table: seq<nat>, sizes: seq<nat>, ip: nat)
    requires ip < |code|
    ensures var r := LowerOne(code, table, sizes, ip); Lowered(code, table, sizes, ip) == Lowered(r, table, sizes, ip + ScanLen(r[ip]))
  {
  }

  /** The loop's body at one instruction. */
  method LowerAt(opt: OptimizedChunk, table: seq<nat>, sizes: seq<nat>, ip: nat)
    requires ip < |opt.code|
    modifies opt`code
    ensures opt.code == LowerOne(old(opt.code), table, sizes, ip)
  {
    var op := opt.code[ip];
    if op == OP_CALL && ip + 3 < |opt.code| {
      var fn, argc := Slot(opt.code, ip + 1), opt.code[ip + 3];
      if fn < |table| {
        var entry, frame := table[fn], FrameSize(sizes, fn, argc);
        if entry <= 0xFFFF && frame <= 0xFF && (argc == 0 || argc == 1) {
          opt.code := opt.code[ip := if argc == 0 then OP_CALL_FAST_0 else OP_CALL_FAST_1];
          opt.code := opt.code[ip + 1 := Lo(entry)];
          opt.code := opt.code[ip + 2 := Hi(entry)];
          opt.code := opt.code[ip + 3 := frame];
        }
      }
    } else if op == OP_RET {
      opt.code := opt.code[ip := OP_RET_FAST];
    }
  }

  method LowerCalls(opt: OptimizedChunk, table: seq<nat>, sizes: seq<nat>)
    modifies opt`code
    ensures opt.code == Lowered(old(opt.code), table, sizes, 0)
  {
    var ip: nat := 0;
    while ip < |opt.code|
      invariant Lowered(opt.code, table, sizes, ip) == Lowered(old(opt.code), table, sizes, 0)
      decreases |opt.code| - ip
    {
      LoweredFrom(opt.code, table, sizes, ip);
      LowerAt(opt, table, sizes, ip);
      ip := ip + ScanLen(opt.code[ip]);
    }
  }

  // ------------------------------------------------------- what it guarantees

  /** At `ip` both codes hold the same instruction, calls and returns up to their form. */
  predicate SameInstruction(code: seq<Byte>, r: seq<Byte>, table: seq<nat>, sizes: seq<nat>, ip: nat)
    requires |r| == |code| && ip < |code|
  {
    && ScanLen(r[ip]) == ScanLen(code[ip])
    && Called(r, table, sizes, ip) == Called(code, table, sizes, ip)
    && (Returns(r[ip]) <==> Returns(code[ip]))
    && (code[ip] != OP_CALL && code[ip] != OP_RET ==>
          forall q :: ip <= q < ip + ScanLen(code[ip]) && q < |code| ==> r[q] == code[q])
  }

  lemma OneIsSame(code: seq<Byte>, table: seq<nat>, sizes: seq<nat>, ip: nat)
    requires ip < |code|
    ensures SameInstruction(code, LowerOne(code, table, sizes, ip), table, sizes, ip)
    ensures forall q :: 0 <= q < |code| && !(ip <= q < ip + ScanLen(code[ip])) ==>
              LowerOne(code, table, sizes, ip)[q] == code[q]
  {
    if Lowerable(code, table, sizes, ip) {
      WordReadsBackUnsigned(table[Slot(code, ip + 1)]);
    }
  }

  /** Codes that agree from `a` on are stepped through alike and hold the same instructions. */
  lemma {:induction false} AgreeFrom(code: seq<Byte>, r: seq<Byte>, table: seq<nat>, sizes: seq<nat>, a: nat, b: nat)
    requires |r| == |code| && forall q :: a <= q < |code| ==> r[q] == code[q]
    ensures ScanSteps(r, a, b) <==> ScanSteps(code, a, b)
    ensures ScanSteps(code, a, b) && b < |code| ==> SameInstruction(code, r, table, sizes, b)
    decreases |code| - a
  {
    if a < |code| && a != b {
      AgreeFrom(code, r, table, sizes, a + ScanLen(code[a]), b);
    }
  }

  lemma SameTwice(code: seq<Byte>, r: seq<Byte>, w: seq<Byte>, table: seq<nat>, sizes: seq<nat>, ip: nat)
    requires |w| == |r| == |code| && ip < |code|
    requires SameInstruction(code, r, table, sizes, ip) && SameInstruction(r, w, table, sizes, ip)
    requires (r[ip] == OP_CALL || r[ip] == OP_RET) ==> (code[ip] == OP_CALL || code[ip] == OP_RET)
    ensures SameInstruction(code, w, table, sizes, ip)
  {
  }

  /** Main result of the pass: it walks over the same instructions, and each of them is as
      before, except that calls and returns may have their fast form, which pushes the very
      frame, entry and return address of the ordinary call. */
  lemma {:induction false} LoweringIsExact(code: seq<Byte>, table: seq<nat>, sizes: seq<nat>, a: nat, b: nat)
    ensures var r := Lowered(code, table, sizes, a);
      && (forall q :: 0 <= q < a && q < |code| ==> r[q] == code[q])
      && (ScanSteps(r, a, b) <==> ScanSteps(code, a, b))
      && (ScanSteps(code, a, b) && b < |code| ==> SameInstruction(code, r, table, sizes, b))
    decreases |code| - a
  {
    if a < |code| {
      var c := LowerOne(code, table, sizes, a);
      var next := a + ScanLen(c[a]);
      OneIsSame(code, table, sizes, a);
      LoweringIsExact(c, table, sizes, next, b);
      StepExact(code, c, Lowered(c, table, sizes, next), table, sizes, a, b);
    }
  }

  /** One instruction lowered, the rest of the code by what the pass does to it. */
  lemma StepExact(code: seq<Byte>, c: seq<Byte>, r: seq<Byte>, table: seq<nat>, sizes: seq<nat>, a: nat, b: nat)
    requires |r| == |c| == |code| && a < |code| && SameInstruction(code, c, table, sizes, a)
    requires forall q :: 0 <= q < |code| && !(a <= q < a + ScanLen(code[a])) ==> c[q] == code[q]
    requires forall q :: 0 <= q < a + ScanLen(c[a]) && q < |code| ==> r[q] == c[q]
    requires ScanSteps(r, a + ScanLen(c[a]), b) <==> ScanSteps(c, a + ScanLen(c[a]), b)
    requires ScanSteps(c, a + ScanLen(c[a]), b) && b < |code| ==> SameInstruction(c, r, table, sizes, b)
    ensures forall q :: 0 <= q < a && q < |code| ==> r[q] == code[q]
    ensures ScanSteps(r, a, b) <==> ScanSteps(code, a, b)
    ensures ScanSteps(code, a, b) && b < |code| ==> SameInstruction(code, r, table, sizes, b)
  {
    AgreeFrom(code, c, table, sizes, a + ScanLen(c[a]), b);
    HeadKept(code, c, r, table, sizes, a);
    if b != a && ScanSteps(code, a, b) && b < |code| {
      ScanForward(code, a + ScanLen(c[a]), b);
      SameTwice(code, c, r, table, sizes, b);
    }
  }

  lemma {:induction false} ScanForward(code: seq<Byte>, a: nat, b: nat)
    requires ScanSteps(code, a, b)
    ensures a <= b
    decreases |code| - a
  {
    if a != b {
      ScanForward(code, a + ScanLen(code[a]), b);
    }
  }

  /** The instruction at `a` stays once the pass has moved on. */
  lemma HeadKept(code: seq<Byte>, c: seq<Byte>, r: seq<Byte>, table: seq<nat>, sizes: seq<nat>, a: nat)
    requires |r| == |c| == |code| && a < |code| && SameInstruction(code, c, table, sizes, a)
    requires forall q :: 0 <= q < a + ScanLen(c[a]) && q < |code| ==> r[q] == c[q]
    ensures r[a] == c[a] && SameInstruction(code, r, table, sizes, a)
  {
    if r[a] == OP_CALL || r[a] == OP_CALL_FAST_0 || r[a] == OP_CALL_FAST_1 {
      assert a + 4 <= |code| ==> r[a + 1] == c[a + 1] && r[a + 2] == c[a + 2] && r[a + 3] == c[a + 3];
    }
  }

  /** Lowering at `b` looks at the instruction there only. */
  lemma LowerOneLocal(code: seq<Byte>, c: seq<Byte>, table: seq<nat>, sizes: seq<nat>, a: nat, b: nat)
    requires |c| == |code| && a <= b < |code| && forall q :: a <= q < |code| ==> c[q] == code[q]
    ensures forall q :: a <= q < |code| ==> LowerOne(c, table, sizes, b)[q] == LowerOne(code, table, sizes, b)[q]
  {
  }

  /** After the whole pass every instruction that it walks over holds exactly its own lowering. */
  lemma {:induction false} LoweredHere(code: seq<Byte>, table: seq<nat>, sizes: seq<nat>, a: nat, b: nat)
    requires ScanSteps(code, a, b) && b < |code|
    ensures forall q :: b <= q < b + ScanLen(code[b]) && q < |code| ==>
              Lowered(code, table, sizes, a)[q] == LowerOne(code, table, sizes, b)[q]
    decreases |code| - a
  {
    var c := LowerOne(code, table, sizes, a);
    var next := a + ScanLen(c[a]);
    OneIsSame(code, table, sizes, a);
    if a == b {
      LoweringIsExact(c, table, sizes, next, b);
    } else {
      ScanForward(code, next, b);
      AgreeFrom(code, c, table, sizes, next, b);
      LoweredHere(c, table, sizes, next, b);
      LowerOneLocal(code, c, table, sizes, next, b);
    }
  }
}
