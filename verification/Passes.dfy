/** Pass 1 and pass 2 over a whole chunk, and what the optimized code then contains. */
module Passes {
  import opened Bytes
  import opened Vm
  import opened Optimizer

  ghost predicate Complete(a: Input, lay: Layout, size: nat) {
    && LaidOut(a, lay)
    && lay.starts[|lay.starts| - 1] == |a.c|
    && lay.outs[|lay.outs| - 1] == size
  }

  /** Block `i` stands in the code with its relative operands still zero. */
  ghost predicate FilledBlock(a: Input, lay: Layout, code: seq<Byte>, i: nat) {
    && Adjacent(a, lay, i)
    && HasBytes(code, lay.outs[i], a.Block(lay.starts[i], Zeros(|a.ArmsAt(lay.starts[i])|)))
  }

  ghost predicate Filled(a: Input, lay: Layout, code: seq<Byte>) {
    forall i: nat :: i < Blocks(lay) ==> FilledBlock(a, lay, code, i)
  }

  function Extend(a: Input, lay: Layout, ip: nat): (r: Layout)
    requires LaidOut(a, lay) && lay.starts[|lay.starts| - 1] == ip && a.BlockAt(ip)
    ensures Blocks(r) == Blocks(lay) + 1 && |r.starts| == |r.outs|
    ensures forall i :: 0 <= i <= Blocks(lay) ==> r.starts[i] == lay.starts[i] && r.outs[i] == lay.outs[i]
  {
    Layout(lay.starts + [a.Next(ip)], lay.outs + [lay.outs[|lay.outs| - 1] + a.Size(ip)])
  }

  lemma ExtendLaidOut(a: Input, lay: Layout, ip: nat)
    requires LaidOut(a, lay) && lay.starts[|lay.starts| - 1] == ip && a.BlockAt(ip)
    ensures LaidOut(a, Extend(a, lay, ip))
  {
    var r := Extend(a, lay, ip);
    forall i: nat | i < Blocks(r) ensures Adjacent(a, r, i) {
      if i < Blocks(lay) {
        assert Adjacent(a, lay, i);
      }
    }
  }

  lemma {:induction false} PatchListExtends(a: Input, lay: Layout, ip: nat, n: nat)
    requires LaidOut(a, lay) && lay.starts[|lay.starts| - 1] == ip && a.BlockAt(ip) && n <= Blocks(lay)
    ensures LaidOut(a, Extend(a, lay, ip))
    ensures PatchList(a, Extend(a, lay, ip), n) == PatchList(a, lay, n)
    decreases n
  {
    ExtendLaidOut(a, lay, ip);
    if n > 0 {
      PatchListExtends(a, lay, ip, n - 1);
    }
  }

  lemma {:induction false} LayoutOrder(a: Input, lay: Layout, i: nat, j: nat)
    requires LaidOut(a, lay) && i <= j <= Blocks(lay)
    ensures lay.starts[i] + (j - i) <= lay.starts[j]
    ensures lay.outs[i] + (j - i) <= lay.outs[j]
    decreases j - i
  {
    if i < j {
      assert Adjacent(a, lay, i);
      LayoutOrder(a, lay, i + 1, j);
    }
  }

  lemma FilledExtends(a: Input, lay: Layout, ip: nat, code: seq<Byte>, e: seq<Byte>)
    requires LaidOut(a, lay) && lay.starts[|lay.starts| - 1] == ip && a.BlockAt(ip)
    requires lay.outs[|lay.outs| - 1] == |code| && Filled(a, lay, code)
    requires e == a.Block(ip, Zeros(|a.ArmsAt(ip)|))
    ensures Filled(a, Extend(a, lay, ip), code + e)
  {
    var r := Extend(a, lay, ip);
    ExtendLaidOut(a, lay, ip);
    forall i: nat | i < Blocks(r) ensures FilledBlock(a, r, code + e, i) {
      assert Adjacent(a, r, i);
      if i < Blocks(lay) {
        assert FilledBlock(a, lay, code, i);
      }
    }
  }

  lemma MappedExtends(a: Input, lay: Layout, ip: nat, before: seq<nat>, after: seq<nat>)
    requires LaidOut(a, lay) && lay.starts[|lay.starts| - 1] == ip && a.BlockAt(ip)
    requires Mapped(lay, before) && |before| == |after| && a.Next(ip) < |after|
    requires forall k :: 0 <= k < |after| ==>
      after[k] == if ip <= k < a.Next(ip) then lay.outs[|lay.outs| - 1] else before[k]
    ensures Mapped(Extend(a, lay, ip), after)
  {
    var r := Extend(a, lay, ip);
    forall i: nat | i < Blocks(r) ensures MappedBlock(r, after, i) {
      if i < Blocks(lay) {
        assert MappedBlock(lay, before, i);
        LayoutOrder(a, lay, i + 1, Blocks(lay));
      }
    }
  }

  method FillRange(pcMap: array<nat>, from: nat, to: nat, v: nat)
    requires from <= to <= pcMap.Length
    modifies pcMap
    ensures forall k :: 0 <= k < pcMap.Length ==> pcMap[k] == if from <= k < to then v else old(pcMap[k])
  {
    for k := from to to
      invariant forall q :: 0 <= q < pcMap.Length ==> pcMap[q] == if from <= q < k then v else old(pcMap[q])
    {
      pcMap[k] := v;
    }
  }

  lemma MappedKept(a: Input, lay: Layout, pcMap: seq<nat>, v: nat)
    requires LaidOut(a, lay) && Mapped(lay, pcMap)
    requires |pcMap| > 0 && lay.starts[|lay.starts| - 1] == |pcMap| - 1
    ensures Mapped(lay, pcMap[|pcMap| - 1 := v])
  {
    var r := pcMap[|pcMap| - 1 := v];
    forall i: nat | i < Blocks(lay) ensures MappedBlock(lay, r, i) {
      assert MappedBlock(lay, pcMap, i);
      LayoutOrder(a, lay, i + 1, Blocks(lay));
    }
  }

  /** The invariant of the pass 1 loop: everything before `ip` is translated. */
  ghost predicate Progress(a: Input, lay: Layout, ip: nat, code: seq<Byte>, pcMap: seq<nat>, patches: seq<Patch>) {
    && LaidOut(a, lay) && lay.starts[|lay.starts| - 1] == ip && lay.outs[|lay.outs| - 1] == |code|
    && Filled(a, lay, code) && Mapped(lay, pcMap) && patches == PatchList(a, lay, Blocks(lay))
  }

  lemma OneRound(a: Input, lay: Layout, ip: nat, code: seq<Byte>, pcMap: seq<nat>, patches: seq<Patch>,
                 more: seq<Patch>, e: seq<Byte>, pcMap': seq<nat>)
    requires Progress(a, lay, ip, code, pcMap, patches) && a.BlockAt(ip)
    requires e == a.Block(ip, Zeros(|a.ArmsAt(ip)|)) && more == BlockPatches(a.ArmsAt(ip), |code|)
    requires |pcMap'| == |pcMap| && a.Next(ip) < |pcMap|
    requires forall k :: 0 <= k < |pcMap| ==> pcMap'[k] == if ip <= k < a.Next(ip) then |code| else pcMap[k]
    ensures Progress(a, Extend(a, lay, ip), a.Next(ip), code + e, pcMap', patches + more)
  {
    PatchesExtend(a, lay, ip, patches, more);
    FilledExtends(a, lay, ip, code, e);
    MappedExtends(a, lay, ip, pcMap, pcMap');
  }

  lemma PatchesExtend(a: Input, lay: Layout, ip: nat, patches: seq<Patch>, more: seq<Patch>)
    requires LaidOut(a, lay) && lay.starts[|lay.starts| - 1] == ip && a.BlockAt(ip)
    requires patches == PatchList(a, lay, Blocks(lay))
    requires more == BlockPatches(a.ArmsAt(ip), lay.outs[|lay.outs| - 1])
    ensures LaidOut(a, Extend(a, lay, ip))
    ensures patches + more == PatchList(a, Extend(a, lay, ip), Blocks(Extend(a, lay, ip)))
  {
    PatchListExtends(a, lay, ip, Blocks(lay));
  }

  method Round(c: seq<Byte>, f: Flags, targets: set<int>, ip: nat, opt: OptimizedChunk, pcMap: array<nat>)
    returns (next: nat, more: seq<Patch>, ghost e: seq<Byte>)
    requires ip < |c| && Whole(c, ip) && pcMap.Length == |c| + 1
    modifies opt`code, pcMap
    ensures var a := Input(c, f, targets);
      && a.BlockAt(ip) && next == a.Next(ip) <= |c| && Whole(c, next)
      && e == a.Block(ip, Zeros(|a.ArmsAt(ip)|)) && opt.code == old(opt.code) + e
      && more == BlockPatches(a.ArmsAt(ip), |old(opt.code)|)
    ensures forall k :: 0 <= k < pcMap.Length ==> pcMap[k] == if ip <= k < next then |old(opt.code)| else old(pcMap[k])
  {
    BlockFits(c, f, targets, ip);
    var optIp := |opt.code|;
    var k := Recognise(c, f, targets, ip);
    more := opt.Translate(c, ip, k);
    e := Emit(c, ip, k, Zeros(|Arms(c, ip, k)|));
    next := ip + SrcLen(c, ip, k);
    FillRange(pcMap, ip, next, optIp);
  }

  method Pass1(c: Chunk, f: Flags, targets: set<int>, opt: OptimizedChunk, pcMap: array<nat>)
    returns (patches: seq<Patch>, ghost lay: Layout)
    requires Whole(c.code, 0) && opt.code == [] && pcMap.Length == |c.code| + 1
    modifies opt`code, pcMap
    ensures Progress(Input(c.code, f, targets), lay, |c.code|, opt.code, pcMap[..], patches)
    ensures pcMap[|c.code|] == |opt.code|
  {
    ghost var a := Input(c.code, f, targets);
    lay := Layout([0], [0]);
    patches := [];
    var ip := 0;
    while ip < |c.code|
      invariant ip <= |c.code| && Whole(c.code, ip)
      invariant Progress(a, lay, ip, opt.code, pcMap[..], patches)
    {
      ghost var before, mapBefore := opt.code, pcMap[..];
      var next, more, e := Round(c.code, f, targets, ip, opt, pcMap);
      OneRound(a, lay, ip, before, mapBefore, patches, more, e, pcMap[..]);
      lay := Extend(a, lay, ip);
      patches := patches + more;
      ip := next;
    }
    MappedKept(a, lay, pcMap[..], |opt.code|);
    pcMap[|c.code|] := |opt.code|;
  }

  // ----------------------------------------------------------------- pass 2

  /** Destination of a jump in the optimized code; a target past the map goes to the end. */
  function NewTarget(pcMap: seq<nat>, size: nat, target: int): nat {
    if 0 <= target < |pcMap| then pcMap[target] else size
  }

  function Patched(code: seq<Byte>, p: Patch, pcMap: seq<nat>): (r: seq<Byte>)
    requires p.at + 2 <= |code|
    ensures |r| == |code|
  {
    var newOff := NewTarget(pcMap, |code|, p.target) - p.instEnd;
    code[p.at := Lo(newOff)][p.at + 1 := Hi(newOff)]
  }

  predicate PatchesInside(patches: seq<Patch>, size: nat) {
    forall i :: 0 <= i < |patches| ==> patches[i].at + 2 <= size
  }

  function AllPatched(code: seq<Byte>, patches: seq<Patch>, pcMap: seq<nat>): (r: seq<Byte>)
    requires PatchesInside(patches, |code|)
    ensures |r| == |code|
  {
    if patches == [] then code
    else Patched(AllPatched(code, patches[..|patches| - 1], pcMap), patches[|patches| - 1], pcMap)
  }

  method Pass2(opt: OptimizedChunk, patches: seq<Patch>, pcMap: array<nat>)
    requires PatchesInside(patches, |opt.code|)
    modifies opt`code
    ensures opt.code == AllPatched(old(opt.code), patches, pcMap[..])
  {
    ghost var before := opt.code;
    for n := 0 to |patches|
      invariant |opt.code| == |before|
      invariant opt.code == AllPatched(before, patches[..n], pcMap[..])
    {
      var jp := patches[n];
      assert patches[..n + 1][..n] == patches[..n];
      var optTarget := if 0 <= jp.target < pcMap.Length then pcMap[jp.target] else |opt.code|;
      var newOff := optTarget - jp.instEnd;
      opt.code := opt.code[jp.at := Lo(newOff)];
      opt.code := opt.code[jp.at + 1 := Hi(newOff)];
    }
    assert patches[..|patches|] == patches;
  }

  lemma {:induction false} AllPatchedAppend(code: seq<Byte>, p: seq<Patch>, q: seq<Patch>, pcMap: seq<nat>)
    requires PatchesInside(p + q, |code|)
    ensures PatchesInside(p, |code|) && PatchesInside(q, |code|)
    ensures AllPatched(code, p + q, pcMap) == AllPatched(AllPatched(code, p, pcMap), q, pcMap)
    decreases |q|
  {
    forall i | 0 <= i < |p| ensures p[i].at + 2 <= |code| {
      assert (p + q)[i] == p[i];
    }
    forall i | 0 <= i < |q| ensures q[i].at + 2 <= |code| {
      assert (p + q)[|p| + i] == q[i];
    }
    if q == [] {
      assert p + q == p;
    } else {
      var init := q[..|q| - 1];
      assert (p + q)[..|p + q| - 1] == p + init;
      assert PatchesInside(p + init, |code|) by {
        forall i | 0 <= i < |p + init| ensures (p + init)[i].at + 2 <= |code| {
          assert (p + q)[i] == (p + init)[i];
        }
      }
      AllPatchedAppend(code, p, init, pcMap);
    }
  }

  /** The relative operands pass 2 computes for the block translated at `out`. */
  function RelOf(arms: seq<Arm>, out: nat, pcMap: seq<nat>, size: nat): (r: seq<int>)
    ensures |r| == |arms|
  {
    seq(|arms|, j requires 0 <= j < |arms| => NewTarget(pcMap, size, arms[j].target) - (out + arms[j].base))
  }

  /** The byte at offset `q` of a block once the first `n` operands are written over `old_`. */
  function Overlay(arms: seq<Arm>, rel: seq<int>, n: nat, q: int, old_: Byte): Byte
    requires n <= |arms| == |rel|
  {
    if n == 0 then old_
    else if q == arms[n - 1].at then Lo(rel[n - 1])
    else if q == arms[n - 1].at + 1 then Hi(rel[n - 1])
    else Overlay(arms, rel, n - 1, q, old_)
  }

  predicate ArmsInside(arms: seq<Arm>, size: nat) {
    forall j :: 0 <= j < |arms| ==> arms[j].at + 2 <= size
  }

  lemma {:induction false} OverlayOutside(arms: seq<Arm>, rel: seq<int>, n: nat, q: int, old_: Byte, size: nat)
    requires n <= |arms| == |rel| && ArmsInside(arms, size) && !(0 <= q < size)
    ensures Overlay(arms, rel, n, q, old_) == old_
    decreases n
  {
    if n > 0 {
      OverlayOutside(arms, rel, n - 1, q, old_, size);
    }
  }

  /** Relative operands are all that distinguishes the two forms of a block. */
  lemma EmitOverlays(c: seq<Byte>, ip: nat, k: Kind, rel: seq<int>)
    requires Fits(c, ip, k) && |rel| == |Arms(c, ip, k)|
    ensures ArmsInside(Arms(c, ip, k), EmitLen(c, ip, k))
    ensures var arms, e, zero := Arms(c, ip, k), Emit(c, ip, k, rel), Emit(c, ip, k, Zeros(|rel|));
      forall q :: 0 <= q < |e| ==> e[q] == Overlay(arms, rel, |arms|, q, zero[q])
  {
    var arms, e, zero := Arms(c, ip, k), Emit(c, ip, k, rel), Emit(c, ip, k, Zeros(|rel|));
    if |arms| == 0 {
      assert rel == Zeros(0);
    } else if |arms| == 1 {
      forall q | 0 <= q < |e| ensures e[q] == Overlay(arms, rel, 1, q, zero[q]) {
        assert Overlay(arms, rel, 0, q, zero[q]) == zero[q];
      }
    } else {
      forall q | 0 <= q < |e| ensures e[q] == Overlay(arms, rel, 3, q, zero[q]) {
        assert Overlay(arms, rel, 0, q, zero[q]) == zero[q];
        assert Overlay(arms, rel, 1, q, zero[q]) == if q == 1 then e[1] else if q == 2 then e[2] else zero[q];
      }
    }
  }

  lemma {:induction false} ArmsPatched(code: seq<Byte>, arms: seq<Arm>, size: nat, out: nat, n: nat, pcMap: seq<nat>)
    requires ArmsInside(arms, size) && out + size <= |code| && n <= |arms|
    ensures PatchesInside(BlockPatches(arms, out)[..n], |code|)
    ensures var r, rel := AllPatched(code, BlockPatches(arms, out)[..n], pcMap), RelOf(arms, out, pcMap, |code|);
      forall q :: 0 <= q < |code| ==> r[q] == Overlay(arms, rel, n, q - out, code[q])
    decreases n
  {
    if n > 0 {
      ArmsPatched(code, arms, size, out, n - 1, pcMap);
      var ps := BlockPatches(arms, out);
      assert ps[..n][..n - 1] == ps[..n - 1];
      assert AllPatched(code, ps[..n], pcMap) == Patched(AllPatched(code, ps[..n - 1], pcMap), ps[n - 1], pcMap);
    }
  }

  /** Patching one block rewrites its operands and nothing else. */
  lemma BlockPatched(a: Input, ip: nat, code: seq<Byte>, out: nat, pcMap: seq<nat>, zero: seq<Byte>)
    requires a.BlockAt(ip) && zero == a.Block(ip, Zeros(|a.ArmsAt(ip)|)) && HasBytes(code, out, zero)
    ensures PatchesInside(BlockPatches(a.ArmsAt(ip), out), |code|)
    ensures var r := AllPatched(code, BlockPatches(a.ArmsAt(ip), out), pcMap);
      && HasBytes(r, out, a.Block(ip, RelOf(a.ArmsAt(ip), out, pcMap, |code|)))
      && forall q :: 0 <= q < |code| && !(out <= q < out + |zero|) ==> r[q] == code[q]
  {
    var arms := a.ArmsAt(ip);
    var rel := RelOf(arms, out, pcMap, |code|);
    EmitOverlays(a.c, ip, a.KindAt(ip), rel);
    ArmsPatched(code, arms, |zero|, out, |arms|, pcMap);
    var ps := BlockPatches(arms, out);
    assert ps[..|arms|] == ps;
    Spliced(code, AllPatched(code, ps, pcMap), zero, a.Block(ip, rel), arms, rel, out);
  }

  lemma Spliced(code: seq<Byte>, r: seq<Byte>, zero: seq<Byte>, e: seq<Byte>, arms: seq<Arm>, rel: seq<int>, out: nat)
    requires |r| == |code| && |e| == |zero| && |arms| == |rel| && HasBytes(code, out, zero) && ArmsInside(arms, |e|)
    requires forall q :: 0 <= q < |code| ==> r[q] == Overlay(arms, rel, |arms|, q - out, code[q])
    requires forall q :: 0 <= q < |e| ==> e[q] == Overlay(arms, rel, |arms|, q, zero[q])
    ensures HasBytes(r, out, e)
    ensures forall q :: 0 <= q < |code| && !(out <= q < out + |e|) ==> r[q] == code[q]
  {
    forall q | 0 <= q < |e| ensures r[out + q] == e[q] {
      assert (out + q) - out == q;
      assert code[out + q] == zero[q];
    }
    forall q | 0 <= q < |code| && !(out <= q < out + |e|) ensures r[q] == code[q] {
      OverlayOutside(arms, rel, |arms|, q - out, code[q], |e|);
    }
  }

  /** Block `i` stands in the code with its final relative operands. */
  ghost predicate BlockDone(a: Input, lay: Layout, code: seq<Byte>, pcMap: seq<nat>, i: nat) {
    && Adjacent(a, lay, i)
    && var ip := lay.starts[i];
       HasBytes(code, lay.outs[i], a.Block(ip, RelOf(a.ArmsAt(ip), lay.outs[i], pcMap, |code|)))
  }

  /** Only `[from, to)` was rewritten. */
  predicate Outside(code: seq<Byte>, r: seq<Byte>, from: nat, to: nat) {
    |r| == |code| && forall q :: 0 <= q < |code| && !(from <= q < to) ==> r[q] == code[q]
  }

  /** What stands elsewhere is still there when only `[from, to)` was rewritten. */
  lemma HasBytesKept(code: seq<Byte>, r: seq<Byte>, from: nat, to: nat, out: nat, e: seq<Byte>)
    requires Outside(code, r, from, to)
    requires HasBytes(code, out, e) && (out + |e| <= from || to <= out)
    ensures HasBytes(r, out, e)
  {
  }

  lemma OutsideTrans(code: seq<Byte>, r: seq<Byte>, r': seq<Byte>, from: nat, to: nat)
    requires from <= to && Outside(code, r, 0, from) && Outside(r, r', from, to)
    ensures Outside(code, r', 0, to)
  {
  }

  ghost predicate DoneUpTo(a: Input, lay: Layout, code: seq<Byte>, pcMap: seq<nat>, n: nat) {
    forall i: nat {:trigger BlockDone(a, lay, code, pcMap, i)} :: i < n ==> BlockDone(a, lay, code, pcMap, i)
  }

  lemma OneMoreDone(a: Input, lay: Layout, code: seq<Byte>, r: seq<Byte>, pcMap: seq<nat>, n: nat)
    requires LaidOut(a, lay) && n < Blocks(lay) && FilledBlock(a, lay, code, n)
    requires Outside(code, r, 0, lay.outs[n])
    ensures PatchesInside(BlockPatches(a.ArmsAt(lay.starts[n]), lay.outs[n]), |code|)
    ensures var r' := AllPatched(r, BlockPatches(a.ArmsAt(lay.starts[n]), lay.outs[n]), pcMap);
      BlockDone(a, lay, r', pcMap, n) && Outside(r, r', lay.outs[n], lay.outs[n + 1])
  {
    var ip, out := lay.starts[n], lay.outs[n];
    var zero := a.Block(ip, Zeros(|a.ArmsAt(ip)|));
    HasBytesKept(code, r, 0, out, out, zero);
    BlockPatched(a, ip, r, out, pcMap, zero);
  }

  lemma {:induction false} PatchListDone(a: Input, lay: Layout, code: seq<Byte>, pcMap: seq<nat>, n: nat)
    requires LaidOut(a, lay) && Filled(a, lay, code) && n <= Blocks(lay)
    ensures PatchesInside(PatchList(a, lay, n), |code|)
    ensures var r := AllPatched(code, PatchList(a, lay, n), pcMap);
      DoneUpTo(a, lay, r, pcMap, n) && Outside(code, r, 0, lay.outs[n])
    decreases n
  {
    if n > 0 {
      PatchListDone(a, lay, code, pcMap, n - 1);
      PatchOneMore(a, lay, code, pcMap, n - 1, PatchList(a, lay, n - 1));
    }
  }

  lemma PatchOneMore(a: Input, lay: Layout, code: seq<Byte>, pcMap: seq<nat>, n: nat, p: seq<Patch>)
    requires LaidOut(a, lay) && n < Blocks(lay) && FilledBlock(a, lay, code, n) && PatchesInside(p, |code|)
    requires DoneUpTo(a, lay, AllPatched(code, p, pcMap), pcMap, n)
    requires Outside(code, AllPatched(code, p, pcMap), 0, lay.outs[n])
    ensures var all := p + BlockPatches(a.ArmsAt(lay.starts[n]), lay.outs[n]);
      && PatchesInside(all, |code|)
      && DoneUpTo(a, lay, AllPatched(code, all, pcMap), pcMap, n + 1)
      && Outside(code, AllPatched(code, all, pcMap), 0, lay.outs[n + 1])
  {
    var q := BlockPatches(a.ArmsAt(lay.starts[n]), lay.outs[n]);
    var r := AllPatched(code, p, pcMap);
    OneMoreDone(a, lay, code, r, pcMap, n);
    AllPatchedAppend(code, p, q, pcMap);
    DoneStep(a, lay, r, AllPatched(r, q, pcMap), pcMap, n);
    OutsideTrans(code, r, AllPatched(r, q, pcMap), lay.outs[n], lay.outs[n + 1]);
  }

  lemma DoneStep(a: Input, lay: Layout, r: seq<Byte>, r': seq<Byte>, pcMap: seq<nat>, n: nat)
    requires LaidOut(a, lay) && DoneUpTo(a, lay, r, pcMap, n) && n < Blocks(lay)
    requires Outside(r, r', lay.outs[n], lay.outs[n + 1])
    requires BlockDone(a, lay, r', pcMap, n)
    ensures DoneUpTo(a, lay, r', pcMap, n + 1)
  {
    forall i: nat | i < n ensures BlockDone(a, lay, r', pcMap, i) {
      EarlierBlockKept(a, lay, r, r', pcMap, n, i);
    }
  }

  lemma EarlierBlockKept(a: Input, lay: Layout, r: seq<Byte>, r': seq<Byte>, pcMap: seq<nat>, n: nat, i: nat)
    requires LaidOut(a, lay) && i < n < Blocks(lay) && BlockDone(a, lay, r, pcMap, i)
    requires Outside(r, r', lay.outs[n], lay.outs[n + 1])
    ensures BlockDone(a, lay, r', pcMap, i)
  {
    LayoutOrder(a, lay, i + 1, n);
    var ip := lay.starts[i];
    HasBytesKept(r, r', lay.outs[n], lay.outs[n + 1], lay.outs[i],
                 a.Block(ip, RelOf(a.ArmsAt(ip), lay.outs[i], pcMap, |r|)));
  }

  // ------------------------------------------------------------- whole pass

  /** What the optimizer guarantees about the code before the sentinel. */
  ghost predicate Translated(a: Input, lay: Layout, pcMap: seq<nat>, body: seq<Byte>) {
    && Complete(a, lay, |body|)
    && |pcMap| == |a.c| + 1 && Mapped(lay, pcMap) && pcMap[|a.c|] == |body|
    && DoneUpTo(a, lay, body, pcMap, Blocks(lay))
  }

  /** A HALT is appended unless the last byte already looks like one. */
  function Sealed(body: seq<Byte>): seq<Byte> {
    if body == [] || body[|body| - 1] != OP_HALT then body + [OP_HALT] else body
  }

  function Relocated(entries: seq<nat>, pcMap: seq<nat>): (r: seq<nat>)
    ensures |r| == |entries|
  {
    seq(|entries|, i requires 0 <= i < |entries| => if entries[i] < |pcMap| then pcMap[entries[i]] else entries[i])
  }

  method RelocateEntries(entries: seq<nat>, pcMap: array<nat>) returns (r: seq<nat>)
    ensures r == Relocated(entries, pcMap[..])
  {
    r := [];
    for i := 0 to |entries|
      invariant r == Relocated(entries, pcMap[..])[..i]
    {
      r := r + [if entries[i] < pcMap.Length then pcMap[entries[i]] else entries[i]];
    }
  }

  /** Both passes over a chunk that is not empty. */
  method Rewrite(c: Chunk, f: Flags, targets: set<int>, opt: OptimizedChunk, pcMap: array<nat>) returns (ghost lay: Layout)
    requires Whole(c.code, 0) && opt.code == [] && pcMap.Length == |c.code| + 1
    modifies opt`code, pcMap
    ensures Translated(Input(c.code, f, targets), lay, pcMap[..], opt.code)
  {
    var patches;
    patches, lay := Pass1(c, f, targets, opt, pcMap);
    PatchListDone(Input(c.code, f, targets), lay, opt.code, pcMap[..], Blocks(lay));
    Pass2(opt, patches, pcMap);
  }

  /** The jump targets that fusion respects: none are collected without superinstructions. */
  function Protected(c: Chunk, f: Flags): set<int> {
    if f.superinstructions then JumpTargets(c) else {}
  }

  /** Both passes over a chunk, and its entry tables sent through the position map. */
  method TranslateChunk(c: Chunk, f: Flags)
    returns (opt: OptimizedChunk, ghost lay: Layout, ghost pcs: seq<nat>)
    requires Whole(c.code, 0) && c.code != []
    ensures fresh(opt) && Translated(Input(c.code, f, Protected(c, f)), lay, pcs, opt.code)
    ensures opt.functionTable == Relocated(c.functionTable, pcs)
    ensures opt.methodEntries == if c.functionTable == [] then Relocated(c.methodEntries, pcs) else c.methodEntries
  {
    opt := new OptimizedChunk(c);
    var pcMap := new nat[|c.code| + 1](_ => 0);
    var targets: set<int> := {};
    if f.superinstructions {
      targets := CollectJumpTargets(c);
    }
    lay := Rewrite(c, f, targets, opt, pcMap);
    pcs := pcMap[..];
    opt.functionTable := RelocateEntries(opt.functionTable, pcMap);
    if opt.functionTable == [] {
      opt.methodEntries := RelocateEntries(opt.methodEntries, pcMap);
    }
  }
}
