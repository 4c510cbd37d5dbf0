/**
 The top-of-stack register cache: for every depth, memory followed by the cached
 slots (deepest first) is a plain stack.  Whole programs of stack operations give
 the same answers with the generic cache, the register pair and a plain stack.
 */
module TosCache {
  /** The stack in memory that a cache spills to. */
  class Memory<T> {
    var data: seq<T>

    constructor ()
      ensures data == []
    {
      data := [];
    }
  }

  function Reverse<T>(s: seq<T>): seq<T>
    decreases |s|
  {
    if s == [] then [] else Reverse(s[1..]) + [s[0]]
  }

  lemma ReverseFacts<T>(s: seq<T>, v: T)
    ensures Reverse([v] + s) == Reverse(s) + [v]
    ensures Reverse(s + [v]) == [v] + Reverse(s)
  {
    assert ([v] + s)[1..] == s;
    ReverseAppended(s, v);
  }

  lemma {:induction false} ReverseAppended<T>(s: seq<T>, v: T)
    ensures Reverse(s + [v]) == [v] + Reverse(s)
    decreases |s|
  {
    if s == [] {
      assert s + [v] == [v];
    } else {
      var rest := Reverse(s[1..]);
      ReverseAppended(s[1..], v);
      assert (s + [v])[1..] == s[1..] + [v] && (s + [v])[0] == s[0];
      assert Reverse(s + [v]) == ([v] + rest) + [s[0]];
    }
  }

  /** Spilling the deepest slot and caching `val` in front. */
  lemma SpillFacts<T>(data: seq<T>, s: seq<T>, val: T)
    requires s != []
    ensures (data + [Top(s)]) + Reverse([val] + Front(s)) == data + Reverse(s) + [val]
  {
    var f, r := Front(s), Reverse(Front(s));
    ReverseFacts(f, Top(s));
    ReverseFacts(f, val);
    assert f + [Top(s)] == s;
    Regroup(data, [Top(s)], r, [val]);
  }

  lemma Regroup<T>(a: seq<T>, b: seq<T>, c: seq<T>, d: seq<T>)
    ensures (a + b) + (c + d) == a + (b + c) + d
  {
  }

  /** Dropping the front slot. */
  lemma DropFacts<T>(data: seq<T>, s: seq<T>)
    requires s != []
    ensures data + Reverse(s) == data + Reverse(s[1..]) + [s[0]]
  {
    Regroup(data, [], Reverse(s[1..]), [s[0]]);
  }

  /** Refilling the deepest slot from memory. */
  lemma RefillFacts<T>(data: seq<T>, s: seq<T>)
    requires data != []
    ensures Front(data) + Reverse(s + [Top(data)]) == data + Reverse(s)
  {
    ReverseFacts(s, Top(data));
    assert Front(data) + [Top(data)] == data;
    Regroup(Front(data), [Top(data)], Reverse(s), []);
  }

  function Front<T>(s: seq<T>): seq<T>
    requires s != []
  {
    s[..|s| - 1]
  }

  function Top<T>(s: seq<T>): T
    requires s != []
  {
    s[|s| - 1]
  }

  // --------------------------------------------------- any number of slots

  /** What the depth counter of one byte can say. */
  type Depth = d: nat | d <= 255

  class GenericCache<T> {
    /** The number of registers; more than the counter can say would not work. */
    const n: Depth
    const blank: T
    const slots: array<T>
    var depth: Depth

    ghost predicate Valid(mem: Memory<T>)
      reads this, slots
    {
      && slots.Length == (if n > 0 then n else 1)
      && depth <= n && mem as object != this && mem as object != slots && slots as object != this
      && forall i :: depth <= i < slots.Length ==> slots[i] == blank
    }

    ghost function Contents(mem: Memory<T>): seq<T>
      requires Valid(mem)
      reads this, slots, mem
    {
      mem.data + Reverse(slots[..depth])
    }

    constructor (n: Depth, blank: T, mem: Memory<T>)
      ensures Valid(mem) && fresh(slots) && this.n == n && this.blank == blank
      ensures Contents(mem) == mem.data
    {
      this.n, this.blank := n, blank;
      slots := new T[if n > 0 then n else 1](_ => blank);
      depth := 0;
    }

    /** Shifts the first `count` slots one place back and puts `val` in front. */
    method ShiftIn(count: nat, val: T)
      requires count < slots.Length
      modifies slots
      ensures slots[..count + 1] == [val] + old(slots[..count])
      ensures forall i {:trigger slots[i]} :: count < i < slots.Length ==> slots[i] == old(slots[i])
    {
      var i := count;
      while i > 0
        invariant 0 <= i <= count
        invariant forall k :: 0 <= k < slots.Length ==>
          slots[k] == if i < k <= count then old(slots[k - 1]) else old(slots[k])
      {
        slots[i] := slots[i - 1];
        i := i - 1;
      }
      slots[0] := val;
    }

    method Push(val: T, mem: Memory<T>)
      requires Valid(mem)
      modifies this`depth, slots, mem
      ensures Valid(mem) && Contents(mem) == old(Contents(mem)) + [val]
      ensures depth == if old(depth) < n then old(depth) + 1 else n
    {
      if n == 0 {
        mem.data := mem.data + [val];
        return;
      }
      ghost var was, data := slots[..depth], mem.data;
      if depth >= n {
        SpillFacts(data, was, val);
        mem.data := mem.data + [slots[n - 1]];
        assert slots[..n - 1] == Front(was) && slots[n - 1] == Top(was);
        ShiftIn(n - 1, val);
      } else {
        ReverseFacts(was, val);
        ShiftIn(depth, val);
        depth := depth + 1;
      }
    }

    /** Shifts the first `count` slots one place forward and clears the last of them. */
    method ShiftOut(count: nat)
      requires 0 < count <= slots.Length
      modifies slots
      ensures forall k {:trigger slots[k]} :: 0 <= k < slots.Length ==>
        slots[k] == if k < count - 1 then old(slots[k + 1]) else if k == count - 1 then blank else old(slots[k])
    {
      var i := 0;
      while i < count - 1
        invariant 0 <= i <= count - 1
        invariant forall k {:trigger slots[k]} :: 0 <= k < slots.Length ==>
          slots[k] == if k < i then old(slots[k + 1]) else old(slots[k])
      {
        slots[i] := slots[i + 1];
        i := i + 1;
      }
      slots[count - 1] := blank;
    }

    /** Takes one value from memory into the next free slot. */
    method Refill(mem: Memory<T>)
      requires Valid(mem) && mem.data != [] && depth < n
      modifies this`depth, slots, mem
      ensures Valid(mem) && Contents(mem) == old(Contents(mem)) && depth == old(depth) + 1
    {
      ghost var kept := slots[..depth];
      RefillFacts(mem.data, kept);
      slots[depth] := Top(mem.data);
      mem.data := Front(mem.data);
      depth := depth + 1;
      assert slots[..depth] == kept + [slots[depth - 1]];
    }

    method Pop(mem: Memory<T>) returns (val: T)
      requires Valid(mem) && Contents(mem) != []
      modifies this`depth, slots, mem
      ensures Valid(mem) && old(Contents(mem)) == Contents(mem) + [val]
      ensures depth == if old(depth) > 0 && old(mem.data) == [] then old(depth) - 1 else old(depth)
    {
      if n == 0 || depth == 0 {
        assert Contents(mem) == mem.data;
        val := Top(mem.data);
        mem.data := Front(mem.data);
        assert Contents(mem) == mem.data;
        return;
      }
      val := PopSlot(mem);
      if mem.data != [] && depth < n {
        Refill(mem);
      }
    }

    method PopSlot(mem: Memory<T>) returns (val: T)
      requires Valid(mem) && depth > 0
      modifies this`depth, slots
      ensures Valid(mem) && old(Contents(mem)) == Contents(mem) + [val] && depth == old(depth) - 1
    {
      DropFacts(mem.data, slots[..depth]);
      val := DropFront(mem, slots[..depth]);
    }

    method DropFront(mem: Memory<T>, ghost was: seq<T>) returns (val: T)
      requires Valid(mem) && depth > 0 && slots[..depth] == was
      modifies this`depth, slots
      ensures Valid(mem) && depth == old(depth) - 1 && slots[..depth] == was[1..] && val == was[0]
    {
      val := slots[0];
      assert forall k :: 0 <= k < depth ==> was[k] == slots[k];
      ShiftOut(depth);
      depth := depth - 1;
    }

    method Peek(mem: Memory<T>) returns (val: T)
      requires Valid(mem) && Contents(mem) != []
      ensures val == Top(Contents(mem))
    {
      if n == 0 {
        return Top(mem.data);
      }
      if depth > 0 {
        return slots[0];
      }
      return Top(mem.data);
    }

    /** Afterwards the whole stack is in memory. */
    method Flush(mem: Memory<T>)
      requires Valid(mem)
      modifies this`depth, slots, mem
      ensures Valid(mem) && mem.data == Contents(mem) == old(Contents(mem)) && depth == 0
    {
      if n == 0 || depth == 0 {
        return;
      }
      var i := depth;
      while i > 0
        invariant 0 <= i <= depth
        invariant mem.data + Reverse(slots[..i]) == old(Contents(mem))
        invariant forall k :: i <= k < slots.Length ==> slots[k] == blank
      {
        assert slots[..i] == slots[..i - 1] + [slots[i - 1]];
        ReverseFacts(slots[..i - 1], slots[i - 1]);
        mem.data := mem.data + [slots[i - 1]];
        slots[i - 1] := blank;
        i := i - 1;
      }
      depth := 0;
    }
  }

  // ---------------------------------------------------------- two registers

  class PairCache<T> {
    const blank: T
    var tos0: T
    var tos1: T
    var depth: Depth

    ghost predicate Valid(mem: Memory<T>)
      reads this
    {
      depth <= 2 && mem as object != this
    }

    ghost function Contents(mem: Memory<T>): seq<T>
      requires Valid(mem)
      reads this, mem
    {
      mem.data + (if depth == 2 then [tos1, tos0] else if depth == 1 then [tos0] else [])
    }

    constructor (blank: T, mem: Memory<T>)
      ensures Valid(mem) && Contents(mem) == mem.data && this.blank == blank
    {
      this.blank := blank;
      tos0, tos1, depth := blank, blank, 0;
    }

    method Push(val: T, mem: Memory<T>)
      requires Valid(mem)
      modifies this, mem
      ensures Valid(mem) && Contents(mem) == old(Contents(mem)) + [val]
      ensures depth == if old(depth) < 2 then old(depth) + 1 else 2
    {
      if depth == 0 {
        tos0 := val;
        depth := 1;
      } else if depth == 1 {
        tos1 := tos0;
        tos0 := val;
        depth := 2;
      } else {
        mem.data := mem.data + [tos1];
        tos1 := tos0;
        tos0 := val;
      }
    }

    method Pop(mem: Memory<T>) returns (val: T)
      requires Valid(mem) && Contents(mem) != []
      modifies this, mem
      ensures Valid(mem) && old(Contents(mem)) == Contents(mem) + [val]
      ensures depth == if old(depth) > 0 then old(depth) - 1 else 0
    {
      if depth == 2 {
        val := tos0;
        tos0 := tos1;
        depth := 1;
      } else if depth == 1 {
        val := tos0;
        depth := 0;
      } else {
        val := Top(mem.data);
        mem.data := Front(mem.data);
      }
    }

    /** A binary operation in the registers: two pops and a push, second operand on top. */
    method BinaryOp(op: (T, T) -> T, mem: Memory<T>)
      requires Valid(mem) && |Contents(mem)| >= 2
      modifies this, mem
      ensures Valid(mem) && depth == 1
      ensures var was := old(Contents(mem));
        Contents(mem) == was[..|was| - 2] + [op(was[|was| - 2], was[|was| - 1])]
    {
      if depth == 2 {
        tos0 := op(tos1, tos0);
        depth := 1;
      } else if depth == 1 {
        var a := Top(mem.data);
        mem.data := Front(mem.data);
        tos0 := op(a, tos0);
      } else {
        var b := Top(mem.data);
        mem.data := Front(mem.data);
        var a := Top(mem.data);
        mem.data := Front(mem.data);
        tos0 := op(a, b);
        depth := 1;
      }
    }

    method Peek(mem: Memory<T>) returns (val: T)
      requires Valid(mem) && Contents(mem) != []
      ensures val == Top(Contents(mem))
    {
      if depth > 0 {
        return tos0;
      }
      return Top(mem.data);
    }

    method Flush(mem: Memory<T>)
      requires Valid(mem)
      modifies this, mem
      ensures Valid(mem) && mem.data == Contents(mem) == old(Contents(mem)) && depth == 0
    {
      if depth == 2 {
        mem.data := mem.data + [tos1];
        mem.data := mem.data + [tos0];
        tos0 := blank;
        tos1 := blank;
        depth := 0;
      } else if depth == 1 {
        mem.data := mem.data + [tos0];
        tos0 := blank;
        depth := 0;
      }
    }
  }

  // ---------------------------------------------------------- whole programs

  datatype Op<!T> = OpPush(v: T) | OpPop | OpPeek | OpBinary(f: (T, T) -> T) | OpFlush

  /** The operands that an operation needs on the stack. */
  function Needs<T>(op: Op<T>): nat {
    match op
    case OpPop => 1
    case OpPeek => 1
    case OpBinary(_) => 2
    case _ => 0
  }

  /** One operation on a plain stack, and the values it hands back. */
  function PlainStep<T>(s: seq<T>, op: Op<T>): (r: (seq<T>, seq<T>))
    requires Needs(op) <= |s|
  {
    match op
    case OpPush(v) => (s + [v], [])
    case OpPop => (Front(s), [Top(s)])
    case OpPeek => (s, [Top(s)])
    case OpBinary(f) => (s[..|s| - 2] + [f(s[|s| - 2], s[|s| - 1])], [])
    case OpFlush => (s, [])
  }

  /** From operation `i` on, no operation runs out of operands. */
  predicate Runs<T>(s: seq<T>, ops: seq<Op<T>>, i: nat)
    requires i <= |ops|
    decreases |ops| - i
  {
    i == |ops| || (Needs(ops[i]) <= |s| && Runs(PlainStep(s, ops[i]).0, ops, i + 1))
  }

  /** The operations from `i` on, run on a plain stack: what is left, and the values handed back. */
  function PlainRun<T>(s: seq<T>, ops: seq<Op<T>>, i: nat): (seq<T>, seq<T>)
    requires i <= |ops| && Runs(s, ops, i)
    decreases |ops| - i
  {
    if i == |ops| then (s, [])
    else
      var step := PlainStep(s, ops[i]);
      var rest := PlainRun(step.0, ops, i + 1);
      (rest.0, step.1 + rest.1)
  }

  /** A binary operation on the generic cache: two pops and a push. */
  method PopBinary<T>(cache: GenericCache<T>, mem: Memory<T>, f: (T, T) -> T)
    requires cache.Valid(mem) && |cache.Contents(mem)| >= 2
    modifies cache`depth, cache.slots, mem
    ensures cache.Valid(mem) && cache.Contents(mem) == PlainStep(old(cache.Contents(mem)), OpBinary(f)).0
  {
    ghost var s := cache.Contents(mem);
    var b := cache.Pop(mem);
    var a := cache.Pop(mem);
    ghost var rest := cache.Contents(mem);
    assert s == rest + [a] + [b];
    cache.Push(f(a, b), mem);
    assert s[..|s| - 2] == rest;
  }

  method StepGeneric<T>(cache: GenericCache<T>, mem: Memory<T>, op: Op<T>) returns (out: seq<T>)
    requires cache.Valid(mem) && Needs(op) <= |cache.Contents(mem)|
    modifies cache`depth, cache.slots, mem
    ensures cache.Valid(mem)
    ensures cache.Contents(mem) == PlainStep(old(cache.Contents(mem)), op).0
    ensures out == PlainStep(old(cache.Contents(mem)), op).1
  {
    out := [];
    match op
    case OpPush(v) =>
      cache.Push(v, mem);
    case OpPop =>
      var v := cache.Pop(mem);
      out := [v];
    case OpPeek =>
      var v := cache.Peek(mem);
      out := [v];
    case OpBinary(f) =>
      PopBinary(cache, mem, f);
    case OpFlush =>
      cache.Flush(mem);
  }

  /** Any program on a cache of any depth up to 255 gives what a plain stack gives. */
  method RunGeneric<T>(cache: GenericCache<T>, mem: Memory<T>, ops: seq<Op<T>>) returns (out: seq<T>)
    requires cache.Valid(mem) && Runs(cache.Contents(mem), ops, 0)
    modifies cache`depth, cache.slots, mem
    ensures cache.Valid(mem)
    ensures cache.Contents(mem) == PlainRun(old(cache.Contents(mem)), ops, 0).0
    ensures out == PlainRun(old(cache.Contents(mem)), ops, 0).1
  {
    out := [];
    var i := 0;
    ghost var goal := PlainRun(cache.Contents(mem), ops, 0);
    while i < |ops|
      invariant 0 <= i <= |ops| && cache.Valid(mem)
      invariant Runs(cache.Contents(mem), ops, i)
      invariant PlainRun(cache.Contents(mem), ops, i).0 == goal.0
      invariant out + PlainRun(cache.Contents(mem), ops, i).1 == goal.1
    {
      var given := StepGeneric(cache, mem, ops[i]);
      out := out + given;
      i := i + 1;
    }
  }

  method PairBinary<T>(cache: PairCache<T>, mem: Memory<T>, f: (T, T) -> T)
    requires cache.Valid(mem) && |cache.Contents(mem)| >= 2
    modifies cache, mem
    ensures cache.Valid(mem) && cache.Contents(mem) == PlainStep(old(cache.Contents(mem)), OpBinary(f)).0
  {
    cache.BinaryOp(f, mem);
  }

  method StepPair<T>(cache: PairCache<T>, mem: Memory<T>, op: Op<T>) returns (out: seq<T>)
    requires cache.Valid(mem) && Needs(op) <= |cache.Contents(mem)|
    modifies cache, mem
    ensures cache.Valid(mem)
    ensures cache.Contents(mem) == PlainStep(old(cache.Contents(mem)), op).0
    ensures out == PlainStep(old(cache.Contents(mem)), op).1
  {
    out := [];
    match op
    case OpPush(v) =>
      cache.Push(v, mem);
    case OpPop =>
      var v := cache.Pop(mem);
      out := [v];
    case OpPeek =>
      var v := cache.Peek(mem);
      out := [v];
    case OpBinary(f) =>
      PairBinary(cache, mem, f);
    case OpFlush =>
      cache.Flush(mem);
  }

  /** So does the register pair; hence the two agree on every program. */
  method RunPair<T>(cache: PairCache<T>, mem: Memory<T>, ops: seq<Op<T>>) returns (out: seq<T>)
    requires cache.Valid(mem) && Runs(cache.Contents(mem), ops, 0)
    modifies cache, mem
    ensures cache.Valid(mem)
    ensures cache.Contents(mem) == PlainRun(old(cache.Contents(mem)), ops, 0).0
    ensures out == PlainRun(old(cache.Contents(mem)), ops, 0).1
  {
    out := [];
    var i := 0;
    ghost var goal := PlainRun(cache.Contents(mem), ops, 0);
    while i < |ops|
      invariant 0 <= i <= |ops| && cache.Valid(mem)
      invariant Runs(cache.Contents(mem), ops, i)
      invariant PlainRun(cache.Contents(mem), ops, i).0 == goal.0
      invariant out + PlainRun(cache.Contents(mem), ops, i).1 == goal.1
    {
      var given := StepPair(cache, mem, ops[i]);
      out := out + given;
      i := i + 1;
    }
  }
}
