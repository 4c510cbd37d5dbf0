/** Which calls and returns take their short form in what the optimizer returns, and into which bytes. */
module LoweringLaws {
  import opened Bytes
  import opened Vm
  import opened Optimizer
  import opened Passes
  import opened Relocation
  import opened Fusion
  import opened Frames
  import opened FastCalls
  import opened CallRuns
  import opened Pipeline

  /** A call whose function has an entry that fits two bytes, at most one argument, and a frame that fits one. */
  predicate Short(table: seq<nat>, sizes: seq<nat>, fn: nat, argc: nat) {
    fn < |table| && argc <= 1 && table[fn] <= 0xFFFF && FrameSize(sizes, fn, argc) <= 0xFF
  }

  lemma CopiedKind(a: Input, ip: nat)
    requires a.BlockAt(ip) && (a.c[ip] == OP_CALL || a.c[ip] == OP_RET)
    ensures a.KindAt(ip) == Copy
  {
  }

  lemma LoweredCall(body: seq<Byte>, low: seq<Byte>, table: seq<nat>, sizes: seq<nat>, out: nat, c: seq<Byte>, ip: nat)
    requires ip + 4 <= |c| && c[ip] == OP_CALL && HasBytes(body, out, c[ip..ip + 4]) && |low| == |body|
    requires forall q :: out <= q < out + 4 ==> low[q] == LowerOne(body, table, sizes, out)[q]
    ensures var fn: nat, argc: nat := Slot(c, ip + 1), c[ip + 3];
      if Short(table, sizes, fn, argc) then
        HasBytes(low, out, [if argc == 0 then OP_CALL_FAST_0 else OP_CALL_FAST_1, table[fn] % 256, table[fn] / 256,
                            FrameSize(sizes, fn, argc)])
      else HasBytes(low, out, c[ip..ip + 4])
  {
    FourBytes(body, out, c, ip);
    if !Lowerable(body, table, sizes, out) {
      var e := c[ip..ip + 4];
      forall q | 0 <= q < |e| ensures low[out + q] == e[q] {
        assert body[out + q] == e[q];
      }
    }
  }

  lemma SealedKeeps(w: Finished, out: nat, e: seq<Byte>)
    requires HasBytes(w.Low(), out, e)
    ensures HasBytes(w.Code(), out, e)
  {
  }

  /** A call is shortened exactly when calls are lowered at all and it is short; it then holds
      entry and frame, and otherwise the four bytes of the chunk. */
  lemma CallShortenedIff(w: Finished, i: nat)
    requires w.x.Sound() && i < Blocks(w.x.lay) && Adjacent(w.x.In(), w.x.lay, i)
    requires w.x.c.code[w.x.lay.starts[i]] == OP_CALL
    ensures i < |w.x.lay.outs| && w.x.lay.starts[i] + 4 <= |w.x.c.code|
    ensures var c, ip, out := w.x.c.code, w.x.lay.starts[i], w.x.lay.outs[i];
      var fn: nat, argc: nat := Slot(c, ip + 1), c[ip + 3];
      if w.fast && Short(w.table, w.frames, fn, argc) then
        HasBytes(w.Code(), out, [if argc == 0 then OP_CALL_FAST_0 else OP_CALL_FAST_1, w.table[fn] % 256, w.table[fn] / 256,
                                 FrameSize(w.frames, fn, argc)])
      else HasBytes(w.Code(), out, c[ip..ip + 4])
  {
    var c, ip, out := w.x.c.code, w.x.lay.starts[i], w.x.lay.outs[i];
    CopiedKind(w.x.In(), ip);
    CallCopied(w.x, i);
    BlockLowers(w, i);
    FourBytes(w.x.body, out, c, ip);
    if w.fast {
      LoweredCall(w.x.body, w.Low(), w.table, w.frames, out, c, ip);
    }
    var fn: nat, argc: nat := Slot(c, ip + 1), c[ip + 3];
    SealedKeeps(w, out, if w.fast && Short(w.table, w.frames, fn, argc)
                        then [if argc == 0 then OP_CALL_FAST_0 else OP_CALL_FAST_1, w.table[fn] % 256, w.table[fn] / 256,
                              FrameSize(w.frames, fn, argc)]
                        else c[ip..ip + 4]);
  }

  /** Every return is shortened when calls are lowered, and no other block is touched. */
  lemma OthersKept(w: Finished, i: nat)
    requires w.x.Sound() && CallsAreSound(w.x) && i < Blocks(w.x.lay) && Adjacent(w.x.In(), w.x.lay, i)
    requires w.x.c.code[w.x.lay.starts[i]] != OP_CALL
    ensures var ip, out, end := w.x.lay.starts[i], w.x.lay.outs[i], w.x.lay.outs[i + 1];
      && out < end <= |w.x.body|
      && if w.fast && w.x.c.code[ip] == OP_RET then HasBytes(w.Code(), out, [OP_RET_FAST])
         else HasBytes(w.Code(), out, w.x.body[out..end])
  {
    var ip, out, end := w.x.lay.starts[i], w.x.lay.outs[i], w.x.lay.outs[i + 1];
    BlockLowers(w, i);
    ReturnsStay(w.x, i);
    CallsStay(w.x, i);
    KeptBytes(w.x.body, w.Low(), w.table, w.frames, w.fast, out, end);
    if w.fast && w.x.c.code[ip] == OP_RET {
      SealedKeeps(w, out, [OP_RET_FAST]);
    } else {
      SealedKeeps(w, out, w.x.body[out..end]);
    }
  }

  lemma KeptBytes(body: seq<Byte>, low: seq<Byte>, table: seq<nat>, sizes: seq<nat>, fast: bool, out: nat, end: nat)
    requires |low| == |body| && out < end <= |body| && body[out] != OP_CALL && (body[out] == OP_RET ==> end == out + 1)
    requires forall q :: out <= q < end ==> low[q] == (if fast then LowerOne(body, table, sizes, out)[q] else body[q])
    ensures if fast && body[out] == OP_RET then HasBytes(low, out, [OP_RET_FAST]) else HasBytes(low, out, body[out..end])
  {
  }

  lemma CallsStay(x: Compiled, i: nat)
    requires x.Sound() && CallsAreSound(x) && i < Blocks(x.lay) && Adjacent(x.In(), x.lay, i)
    ensures x.lay.outs[i] < |x.body|
    ensures x.body[x.lay.outs[i]] == OP_CALL ==> x.c.code[x.lay.starts[i]] == OP_CALL
  {
    var a, ip, out := x.In(), x.lay.starts[i], x.lay.outs[i];
    StartsReached(a, x.lay, i);
    BlockPlace(x, i);
    var rel := BlockFacts(x, i);
    var e := a.Block(ip, rel);
    assert BlockDone(a, x.lay, x.body, x.pcs, i);
    assert x.body[out + 0] == e[0];
    CallOpcode(a, ip, rel);
  }

  lemma CallOpcode(a: Input, ip: nat, rel: seq<int>)
    requires a.BlockAt(ip) && |rel| == |a.ArmsAt(ip)|
    ensures |a.Block(ip, rel)| > 0 && (a.Block(ip, rel)[0] == OP_CALL ==> a.c[ip] == OP_CALL)
  {
  }
}
