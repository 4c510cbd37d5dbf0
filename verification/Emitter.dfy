/** The head of a range loop as the code emitter writes it, and what the loop fusion needs of it. */
module Emitter {
  import opened Bytes
  import opened Vm
  import opened BlockSemantics

  function LoadSlot(slot: nat): seq<Byte> {
    [OP_LOAD_LOCAL] + Word(slot)
  }

  /** The opcode and `write_int64` of zero. */
  const PUSH_ZERO: seq<Byte> := [OP_PUSH_INT, 0, 0, 0, 0, 0, 0, 0, 0]

  /** The bytes of one conjunction: a test of the step and a test of the variable. */
  function Half(stepSlot: nat, varSlot: nat, stopSlot: nat, stepTest: Byte, varTest: Byte): (b: seq<Byte>)
    ensures |b| == 21
  {
    [OP_LOAD_LOCAL, Lo(stepSlot), Hi(stepSlot), OP_PUSH_INT, 0, 0, 0, 0, 0, 0, 0, 0, stepTest,
     OP_LOAD_LOCAL, Lo(varSlot), Hi(varSlot), OP_LOAD_LOCAL, Lo(stopSlot), Hi(stopSlot), varTest, OP_TERNARY_MIN]
  }

  function RangeHeader(stepSlot: nat, varSlot: nat, stopSlot: nat): (b: seq<Byte>)
    ensures |b| == 46
  {
    Half(stepSlot, varSlot, stopSlot, OP_GT, OP_LT) + Half(stepSlot, varSlot, stopSlot, OP_LT, OP_GT) +
    [OP_TERNARY_MAX, OP_JUMP_IF_FALSE, 0, 0]
  }

  method EmitHalf(code: seq<Byte>, stepSlot: nat, varSlot: nat, stopSlot: nat, stepTest: Byte, varTest: Byte)
    returns (out: seq<Byte>)
    ensures out == code + Half(stepSlot, varSlot, stopSlot, stepTest, varTest)
  {
    var half := LoadSlot(stepSlot);
    half := half + PUSH_ZERO;
    half := half + [stepTest];
    half := half + LoadSlot(varSlot);
    half := half + LoadSlot(stopSlot);
    half := half + [varTest];
    half := half + [OP_TERNARY_MIN];
    assert half == Half(stepSlot, varSlot, stopSlot, stepTest, varTest);
    out := code + half;
  }

  /** Appends the test (step > 0 && var < stop) || (step < 0 && var > stop) and the exit
      jump, whose offset is patched later. */
  method EmitRangeHeader(code: seq<Byte>, stepSlot: nat, varSlot: nat, stopSlot: nat) returns (out: seq<Byte>)
    ensures out == code + RangeHeader(stepSlot, varSlot, stopSlot)
  {
    out := EmitHalf(code, stepSlot, varSlot, stopSlot, OP_GT, OP_LT);
    out := EmitHalf(out, stepSlot, varSlot, stopSlot, OP_LT, OP_GT);
    out := out + [OP_TERNARY_MAX, OP_JUMP_IF_FALSE, 0, 0];
  }

  /** Wherever it ends up, and however its exit jump is patched, an emitted header is one that
      the loop fusion translates faithfully, and it is a loop over the emitter's three slots. */
  lemma EmittedHeaderFuses(c: seq<Byte>, ip: nat, stepSlot: nat, varSlot: nat, stopSlot: nat)
    requires stepSlot < 65536 && varSlot < 65536 && stopSlot < 65536 && ip + 46 <= |c|
    requires c[ip..ip + 44] == RangeHeader(stepSlot, varSlot, stopSlot)[..44]
    ensures EmittedHeader(c, ip)
    ensures Slot(c, ip + 1) == stepSlot && Slot(c, ip + 14) == varSlot && Slot(c, ip + 17) == stopSlot
  {
    var w, h := c[ip..ip + 44], RangeHeader(stepSlot, varSlot, stopSlot);
    forall k | 0 <= k < 44 ensures c[ip + k] == h[k] {
      assert c[ip + k] == w[k];
    }
    forall k | 0 <= k < 21
      ensures c[ip + k] == Half(stepSlot, varSlot, stopSlot, OP_GT, OP_LT)[k]
      ensures c[ip + 21 + k] == Half(stepSlot, varSlot, stopSlot, OP_LT, OP_GT)[k]
    {
      assert h[21 + k] == Half(stepSlot, varSlot, stopSlot, OP_LT, OP_GT)[k];
      assert c[ip + (21 + k)] == h[21 + k];
    }
    assert c[ip + 42] == h[42] && c[ip + 43] == h[43];
    HalfAt(c, ip, stepSlot, varSlot, stopSlot, OP_GT, OP_LT);
    HalfAt(c, ip + 21, stepSlot, varSlot, stopSlot, OP_LT, OP_GT);
  }

  lemma HalfAt(c: seq<Byte>, p: nat, stepSlot: nat, varSlot: nat, stopSlot: nat, stepTest: Byte, varTest: Byte)
    requires stepSlot < 65536 && varSlot < 65536 && stopSlot < 65536 && p + 21 <= |c|
    requires c[p..p + 21] == Half(stepSlot, varSlot, stopSlot, stepTest, varTest)
    ensures c[p] == OP_LOAD_LOCAL && c[p + 3] == OP_PUSH_INT && c[p + 12] == stepTest
    ensures c[p + 13] == OP_LOAD_LOCAL && c[p + 16] == OP_LOAD_LOCAL && c[p + 19] == varTest && c[p + 20] == OP_TERNARY_MIN
    ensures Slot(c, p + 1) == stepSlot && Slot(c, p + 14) == varSlot && Slot(c, p + 17) == stopSlot
    ensures I64(c, p + 4) == 0
  {
    var h := c[p..p + 21];
    assert c[p] == h[0] && c[p + 1] == h[1] && c[p + 2] == h[2] && c[p + 3] == h[3] && c[p + 12] == h[12];
    assert c[p + 13] == h[13] && c[p + 14] == h[14] && c[p + 15] == h[15] && c[p + 16] == h[16];
    assert c[p + 17] == h[17] && c[p + 18] == h[18] && c[p + 19] == h[19] && c[p + 20] == h[20];
    WordReadsBackUnsigned(stepSlot);
    WordReadsBackUnsigned(varSlot);
    WordReadsBackUnsigned(stopSlot);
    var imm := c[p + 4..p + 12];
    forall k | 0 <= k < 8 ensures imm[k] == 0 {
      assert imm[k] == h[4 + k];
    }
    ZeroBytes(imm);
  }

  lemma {:induction false} ZeroBytes(b: seq<Byte>)
    requires forall k :: 0 <= k < |b| ==> b[k] == 0
    ensures FromBytes(b) == 0
    decreases |b|
  {
    if b != [] {
      ZeroBytes(b[1..]);
    }
  }
}
