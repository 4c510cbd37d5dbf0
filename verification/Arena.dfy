/**
 The arena allocator: aligned, in-bounds, never overlapping ranges between resets,
 and every tracked destructor run once, last built first.
 */
module Arena {
  const TWO_64: nat := 0x1_0000_0000_0000_0000

  /** `size_t`: what the allocator adds up wraps around at 2^64. */
  type Size = n: nat | n < TWO_64

  /** A sum of two `size_t`. */
  function Add(x: Size, y: Size): Size {
    if x + y < TWO_64 then x + y else x + y - TWO_64
  }

  datatype Block = Block(base: nat, size: Size)
  datatype Range = Range(start: nat, size: nat)

  /** What `allocate` is asked for. */
  datatype Request = Request(size: Size, alignment: Size)

  predicate Apart(b: Block, c: Block) {
    b.base + b.size <= c.base || c.base + c.size <= b.base
  }

  predicate Inside(r: Range, b: Block) {
    b.base <= r.start && r.start + r.size <= b.base + b.size
  }

  predicate Disjoint(r: Range, q: Range) {
    r.start + r.size <= q.start || q.start + q.size <= r.start
  }

  /** The list of cleanup nodes, newest first. */
  datatype Cleanup = End | Node(obj: nat, next: Cleanup)

  function Reversed<T>(s: seq<T>): seq<T>
    decreases |s|
  {
    if s == [] then [] else [s[|s| - 1]] + Reversed(s[..|s| - 1])
  }

  lemma {:induction false} ReversedAt<T>(s: seq<T>, k: nat)
    requires k < |s|
    ensures |Reversed(s)| == |s| && Reversed(s)[k] == s[|s| - 1 - k]
    decreases |s|
  {
    if k > 0 {
      ReversedAt(s[..|s| - 1], k - 1);
    } else if |s| > 1 {
      ReversedAt(s[..|s| - 1], 0);
    }
  }

  function Tracked(c: Cleanup): seq<nat> {
    match c
    case End => []
    case Node(obj, next) => [obj] + Tracked(next)
  }

  /** The system's allocator, given the blocks in use: never null and never overlapping. */
  type System = (seq<Block>, Size) -> nat

  ghost predicate Honest(os: System) {
    forall blocks: seq<Block>, size: Size {:trigger os(blocks, size)} ::
      os(blocks, size) > 0 &&
      forall i :: 0 <= i < |blocks| ==> Apart(blocks[i], Block(os(blocks, size), size))
  }

  predicate Times(n: nat, m: nat, k: nat) {
    n == k * m
  }

  ghost predicate Aligned(addr: nat, alignment: nat) {
    exists k: nat :: Times(addr, alignment, k)
  }

  function Pad(addr: nat, alignment: Size): (p: Size)
    requires alignment >= 1
    ensures p < alignment
  {
    if addr % alignment == 0 then 0 else alignment - addr % alignment
  }

  method Padding(addr: nat, alignment: Size) returns (p: Size)
    requires alignment >= 1
    ensures p == Pad(addr, alignment) && Aligned(addr + p, alignment)
  {
    p := (alignment - addr % alignment) % alignment;
    PaddingAligns(addr, alignment);
  }

  lemma PaddingAligns(addr: nat, alignment: Size)
    requires alignment >= 1
    ensures Pad(addr, alignment) == (alignment - addr % alignment) % alignment
    ensures Aligned(addr + Pad(addr, alignment), alignment)
  {
    var q, r := addr / alignment, addr % alignment;
    assert addr == q * alignment + r;
    if r == 0 {
      Remainder(alignment - r, alignment, 1, 0);
      assert Times(addr, alignment, q);
    } else {
      Remainder(alignment - r, alignment, 0, alignment - r);
      assert (q + 1) * alignment == q * alignment + alignment;
      assert Times(addr + (alignment - r), alignment, q + 1);
    }
  }

  lemma Remainder(n: int, m: int, q: int, r: int)
    requires m > 0 && n == q * m + r && 0 <= r < m
    ensures n % m == r
  {
    var d := n / m - q;
    assert d * m == r - n % m;
    assert d > 0 ==> d * m >= m;
    assert d < 0 ==> d * m + m <= 0;
  }

  function TotalSize(blocks: seq<Block>): nat
    decreases |blocks|
  {
    if blocks == [] then 0 else TotalSize(blocks[..|blocks| - 1]) + blocks[|blocks| - 1].size
  }

  /** With every block at least `unit` large, counting units undercounts the oversized blocks. */
  lemma {:induction false} UnitsUndercount(blocks: seq<Block>, unit: nat)
    requires forall i :: 0 <= i < |blocks| ==> blocks[i].size >= unit
    ensures |blocks| * unit <= TotalSize(blocks)
    ensures |blocks| * unit == TotalSize(blocks) <==> forall i :: 0 <= i < |blocks| ==> blocks[i].size == unit
    decreases |blocks|
  {
    if blocks != [] {
      var n := |blocks| - 1;
      UnitsUndercount(blocks[..n], unit);
      assert |blocks| * unit == n * unit + unit;
      assert forall i :: 0 <= i < n ==> blocks[..n][i] == blocks[i];
    }
  }

  // ------------------------------------------------------------- the layout

  /** Everything that decides where ranges lie. */
  datatype Layout = Layout(blocks: seq<Block>, offset: Size, given: seq<Range>, owner: seq<nat>)
  {
    predicate BlocksOk(unit: nat) {
      && blocks != [] && offset <= Last().size
      && (forall i :: 0 <= i < |blocks| ==> blocks[i].size >= unit && blocks[i].base > 0)
      && (forall i, j :: 0 <= i < j < |blocks| ==> Apart(blocks[i], blocks[j]))
    }

    function Last(): Block
      requires blocks != []
    {
      blocks[|blocks| - 1]
    }

    /** Every range lies in its block, before the offset in the last one. */
    predicate RangesOk()
      requires blocks != []
    {
      && |owner| == |given|
      && (forall k :: 0 <= k < |given| ==> owner[k] < |blocks| && Inside(given[k], blocks[owner[k]]))
      && (forall k :: 0 <= k < |given| && owner[k] == |blocks| - 1 ==>
           given[k].start + given[k].size <= Last().base + offset)
    }

    predicate NoOverlap() {
      forall k, m :: 0 <= k < m < |given| ==> Disjoint(given[k], given[m])
    }

    ghost predicate Ok(unit: nat) {
      BlocksOk(unit) && RangesOk() && NoOverlap()
    }

    function WithBlock(b: Block): Layout {
      Layout(blocks + [b], 0, given, owner)
    }

    /** The next `size` bytes after `padding` more, the offset moved on in 64 bits. */
    function WithRange(padding: Size, size: Size): Layout
      requires blocks != []
    {
      Layout(blocks, Add(Add(offset, padding), size),
             given + [Range(Last().base + Add(offset, padding), size)], owner + [|blocks| - 1])
    }

    function FirstPad(alignment: Size): Size
      requires blocks != [] && alignment >= 1
    {
      Pad(Last().base + offset, alignment)
    }

    /** The space test, in 64-bit sums: whether a new block is taken. */
    predicate NeedsBlock(unit: Size, size: Size, alignment: Size)
      requires blocks != [] && alignment >= 1
    {
      Add(Add(offset, FirstPad(alignment)), size) > unit
    }

    function NewBlock(unit: Size, os: System, size: Size, alignment: Size): Block {
      var sum := Add(size, alignment);
      var n: Size := if sum > unit then sum else unit;
      Block(os(blocks, n), n)
    }

    /** What `allocate` leaves. */
    function Allocated(unit: Size, os: System, size: Size, alignment: Size): Layout
      requires blocks != [] && alignment >= 1
    {
      if NeedsBlock(unit, size, alignment) then
        var b := NewBlock(unit, os, size, alignment);
        WithBlock(b).WithRange(Pad(b.base, alignment), size)
      else WithRange(FirstPad(alignment), size)
    }

    /** What `make` leaves: the object, and a node behind it when its destructor is tracked. */
    function Made(unit: Size, os: System, item: Request, tracked: bool, node: Request): Layout
      requires blocks != [] && item.alignment >= 1 && node.alignment >= 1
    {
      var m := Allocated(unit, os, item.size, item.alignment);
      if tracked then m.Allocated(unit, os, node.size, node.alignment) else m
    }

    predicate MakeFits(unit: Size, os: System, item: Request, tracked: bool, node: Request)
      requires blocks != [] && item.alignment >= 1 && node.alignment >= 1
    {
      && SumsFit(unit, item.size, item.alignment)
      && (tracked ==> Allocated(unit, os, item.size, item.alignment).SumsFit(unit, node.size, node.alignment))
    }

    /** None of the sums that matter for the request wraps around. */
    predicate SumsFit(unit: Size, size: Size, alignment: Size)
      requires blocks != [] && alignment >= 1
    {
      if NeedsBlock(unit, size, alignment) then size + alignment < TWO_64
      else offset + FirstPad(alignment) + size < TWO_64
    }
  }

  lemma NewBlockKeeps(l: Layout, unit: nat, b: Block)
    requires l.Ok(unit) && b.size >= unit && b.base > 0
    requires forall i :: 0 <= i < |l.blocks| ==> Apart(l.blocks[i], b)
    ensures l.WithBlock(b).Ok(unit)
  {
  }

  lemma NewRangeKeeps(l: Layout, unit: nat, padding: Size, size: Size)
    requires l.Ok(unit) && l.offset + padding + size <= l.Last().size
    ensures l.WithRange(padding, size).Ok(unit) && l.Last().base > 0
  {
    var r := Range(l.Last().base + l.offset + padding, size);
    forall k | 0 <= k < |l.given| ensures Disjoint(l.given[k], r) {
      ApartRanges(l, unit, k, r);
    }
  }

  /** A sum that wraps around puts the range outside its block. */
  lemma WrapsOutside(l: Layout, unit: nat, padding: Size, size: Size)
    requires l.blocks != [] && |l.owner| == |l.given|
    requires l.offset + padding < TWO_64 <= l.offset + padding + size
    ensures !l.WithRange(padding, size).Ok(unit)
  {
    var r, k := l.WithRange(padding, size), |l.given|;
    assert r.given[k] == Range(l.Last().base + l.offset + padding, size) && r.owner[k] == |r.blocks| - 1;
    assert !Inside(r.given[k], r.blocks[r.owner[k]]);
  }

  /** In the last block the request fits if and only if the sum stays below 2^64. */
  lemma InPlaceIff(l: Layout, unit: Size, size: Size, alignment: Size)
    requires l.Ok(unit) && alignment >= 1 && !l.NeedsBlock(unit, size, alignment)
    ensures l.offset + l.FirstPad(alignment) + size < TWO_64 ==> l.WithRange(l.FirstPad(alignment), size).Ok(unit)
    ensures l.Last().size + alignment < TWO_64 && l.offset + l.FirstPad(alignment) + size >= TWO_64 ==>
      !l.WithRange(l.FirstPad(alignment), size).Ok(unit)
  {
    var padding := l.FirstPad(alignment);
    if l.offset + padding + size < TWO_64 {
      NewRangeKeeps(l, unit, padding, size);
    } else if l.Last().size + alignment < TWO_64 {
      WrapsOutside(l, unit, padding, size);
    }
  }

  /** A new block that was asked for with a sum below 2^64 has room. */
  lemma NewBlockFits(l: Layout, unit: Size, os: System, size: Size, alignment: Size)
    requires l.Ok(unit) && alignment >= 1 && Honest(os) && size + alignment < TWO_64
    ensures var b := l.NewBlock(unit, os, size, alignment);
      l.WithBlock(b).WithRange(Pad(b.base, alignment), size).Ok(unit)
  {
    var b := l.NewBlock(unit, os, size, alignment);
    NewBlockKeeps(l, unit, b);
    NewRangeKeeps(l.WithBlock(b), unit, Pad(b.base, alignment), size);
  }

  /** One whose sum wrapped around is too small. */
  lemma NewBlockTooSmall(l: Layout, unit: Size, os: System, size: Size, alignment: Size)
    requires l.blocks != [] && |l.owner| == |l.given|
    requires alignment >= 1 && size + alignment >= TWO_64 && unit + alignment < TWO_64
    ensures var b := l.NewBlock(unit, os, size, alignment);
      !l.WithBlock(b).WithRange(Pad(b.base, alignment), size).Ok(unit)
  {
    var b := l.NewBlock(unit, os, size, alignment);
    var r, k := l.WithBlock(b).WithRange(Pad(b.base, alignment), size), |l.given|;
    assert size > b.size;
    assert r.given[k] == Range(b.base + Pad(b.base, alignment), size) && r.owner[k] == |r.blocks| - 1;
    assert !Inside(r.given[k], r.blocks[r.owner[k]]);
  }

  /** `allocate` keeps every range inside its block and all of them apart if and only if its
      64-bit sums do not wrap around; "only if" for alignments that leave the block's size
      representable, as every alignment of a type does. */
  lemma AllocatedOkIff(l: Layout, unit: Size, os: System, size: Size, alignment: Size)
    requires l.Ok(unit) && alignment >= 1 && Honest(os)
    ensures l.SumsFit(unit, size, alignment) ==> l.Allocated(unit, os, size, alignment).Ok(unit)
    ensures l.Last().size + alignment < TWO_64 ==>
      (l.Allocated(unit, os, size, alignment).Ok(unit) <==> l.SumsFit(unit, size, alignment))
  {
    if !l.NeedsBlock(unit, size, alignment) {
      InPlaceIff(l, unit, size, alignment);
    } else if size + alignment < TWO_64 {
      NewBlockFits(l, unit, os, size, alignment);
    } else if l.Last().size + alignment < TWO_64 {
      NewBlockTooSmall(l, unit, os, size, alignment);
    }
  }

  /** A new block is taken if and only if the offset, the least padding that aligns, and the size come
      to more than one unit, in 64-bit sums; it has one unit, or size and alignment together if that is
      more. Otherwise the next bytes of the last block are handed out. */
  lemma NewBlockIff(l: Layout, unit: Size, os: System, size: Size, alignment: Size)
    requires l.blocks != [] && alignment >= 1
    ensures var r, sum := l.Allocated(unit, os, size, alignment), l.offset + Pad(l.Last().base + l.offset, alignment) + size;
      && r.given == l.given + [r.given[|l.given|]] && r.given[|l.given|].size == size
      && (sum % TWO_64 > unit <==> |r.blocks| == |l.blocks| + 1)
      && (sum % TWO_64 > unit ==>
            var b := r.blocks[|l.blocks|];
            && r.blocks == l.blocks + [b] && (b.size == unit || b.size == (size + alignment) % TWO_64)
            && b.size >= unit && b.size >= (size + alignment) % TWO_64 && b.base == os(l.blocks, b.size))
      && (sum % TWO_64 <= unit ==> r.blocks == l.blocks && r.offset == sum % TWO_64)
  {
    SumIsMod(l.offset, l.FirstPad(alignment), size);
    SumIsMod(size, alignment, 0);
  }

  lemma SumIsMod(x: Size, y: Size, z: Size)
    ensures Add(Add(x, y), z) == (x + y + z) % TWO_64
  {
    var k := (x + y + z) / TWO_64;
    assert x + y + z == k * TWO_64 + (x + y + z) % TWO_64;
  }

  /** The range handed out then starts at a multiple of the alignment. */
  lemma AllocatedAligned(l: Layout, unit: Size, os: System, size: Size, alignment: Size)
    requires l.Ok(unit) && alignment >= 1 && Honest(os) && l.SumsFit(unit, size, alignment)
    ensures var r := l.Allocated(unit, os, size, alignment);
      |r.given| == |l.given| + 1 && Aligned(r.given[|l.given|].start, alignment)
  {
    if l.NeedsBlock(unit, size, alignment) {
      PadsNewBlock(l, l.NewBlock(unit, os, size, alignment), alignment, size);
    } else {
      PadsInPlace(l, alignment, size);
    }
  }

  lemma PadsNewBlock(l: Layout, b: Block, alignment: Size, size: Size)
    requires alignment >= 1
    ensures var r := l.WithBlock(b).WithRange(Pad(b.base, alignment), size);
      |r.given| == |l.given| + 1 && Aligned(r.given[|l.given|].start, alignment)
  {
    PaddingAligns(b.base, alignment);
    RangeStart(l.WithBlock(b), Pad(b.base, alignment), size);
  }

  lemma PadsInPlace(l: Layout, alignment: Size, size: Size)
    requires l.blocks != [] && alignment >= 1 && l.offset + l.FirstPad(alignment) < TWO_64
    ensures var r := l.WithRange(l.FirstPad(alignment), size);
      |r.given| == |l.given| + 1 && Aligned(r.given[|l.given|].start, alignment)
  {
    PaddingAligns(l.Last().base + l.offset, alignment);
    RangeStart(l, l.FirstPad(alignment), size);
  }

  lemma RangeStart(l: Layout, padding: Size, size: Size)
    requires l.blocks != [] && l.offset + padding < TWO_64
    ensures var r := l.WithRange(padding, size);
      |r.given| == |l.given| + 1 && r.given[|l.given|] == Range(l.Last().base + l.offset + padding, size)
  {
  }

  /** A request of 2^64 - 8 bytes at offset 16 passes the space test: its range ends far outside
      the block, the offset goes back to 8, and the next range overlaps the first one. */
  lemma HugeRequestOverlaps(base: nat, unit: Size, os: System)
    requires base > 0 && base % 8 == 0 && unit >= 64
    ensures var l := Layout([Block(base, unit)], 16, [Range(base, 16)], [0]);
      && l.Ok(unit)
      && var m := l.Allocated(unit, os, TWO_64 - 8, 8);
         && |m.blocks| == 1 && m.offset == 8 && |m.given| == 2 && !Inside(m.given[1], m.blocks[0])
         && var r := m.Allocated(unit, os, 8, 8);
            r.given[2] == Range(base + 8, 8) && !Disjoint(r.given[0], r.given[2])
  {
    var l := Layout([Block(base, unit)], 16, [Range(base, 16)], [0]);
    assert (base + 16) % 8 == 0 && (base + 8) % 8 == 0;
    assert l.FirstPad(8) == 0;
    var m := l.Allocated(unit, os, TWO_64 - 8, 8);
    assert m == l.WithRange(0, TWO_64 - 8) && m.offset == 8;
    assert m.FirstPad(8) == 0;
    assert m.Allocated(unit, os, 8, 8) == m.WithRange(0, 8);
  }

  /** A range after the offset of the last block overlaps none handed out before. */
  lemma ApartRanges(l: Layout, unit: nat, k: nat, r: Range)
    requires l.BlocksOk(unit) && l.RangesOk() && k < |l.given|
    requires Inside(r, l.Last()) && r.start >= l.Last().base + l.offset
    ensures Disjoint(l.given[k], r)
  {
    var o := l.owner[k];
    if o < |l.blocks| - 1 {
      assert Apart(l.blocks[o], l.Last());
    }
  }

  /** A cleanup node: three machine addresses. */
  const NODE: Request := Request(24, 8)

  class ArenaAllocator {
    const blockSize: Size
    const os: System
    var currentOffset: Size
    var blocks: seq<Block>
    var cleanupHead: Cleanup
    /** Ranges handed out since the last reset, and the block each lies in. */
    ghost var given: seq<Range>
    ghost var owner: seq<nat>
    /** Objects built with a destructor since the last reset, and all destructions so far. */
    ghost var built: seq<nat>
    ghost var destroyed: seq<nat>

    ghost function Abs(): Layout
      reads this`blocks, this`currentOffset, this`given, this`owner
    {
      Layout(blocks, currentOffset, given, owner)
    }

    /** The cleanup list holds the tracked objects, newest first. */
    ghost predicate CleanupOk()
      reads this`cleanupHead, this`built
    {
      Tracked(cleanupHead) == Reversed(built) && forall k :: 0 <= k < |built| ==> built[k] > 0
    }

    ghost predicate Valid()
      reads this
    {
      Honest(os) && Abs().Ok(blockSize) && CleanupOk()
    }

    constructor (size: Size, system: System)
      requires Honest(system)
      ensures Valid() && given == [] && built == [] && destroyed == [] && blockSize == size && os == system
      ensures blocks == [Block(system([], size), size)] && currentOffset == 0
    {
      blockSize, os := size, system;
      currentOffset, blocks, cleanupHead := 0, [Block(system([], size), size)], End;
      given, owner, built, destroyed := [], [], [], [];
    }

    /** What the class can do without: the next calls work on whatever the last one left. */
    ghost predicate Usable()
      reads this
    {
      Honest(os) && blocks != [] && blocks[|blocks| - 1].base > 0 && CleanupOk()
    }

    method AllocateNewBlock(size: Size)
      requires Usable()
      modifies this`blocks, this`currentOffset
      ensures Usable() && Abs() == old(Abs()).WithBlock(Block(os(old(blocks), size), size))
      ensures old(Valid()) && size >= blockSize ==> Valid()
    {
      if Valid() && size >= blockSize {
        NewBlockKeeps(Abs(), blockSize, Block(os(blocks, size), size));
      }
      blocks := blocks + [Block(os(blocks, size), size)];
      currentOffset := 0;
    }

    /** The space test and, if need be, a new block; then the padding for the last one. */
    method MakeRoom(size: Size, alignment: Size) returns (padding: Size)
      requires Usable() && alignment >= 1
      modifies this`blocks, this`currentOffset
      ensures Usable() && Abs().WithRange(padding, size) == old(Abs()).Allocated(blockSize, os, size, alignment)
    {
      padding := Padding(blocks[|blocks| - 1].base + currentOffset, alignment);
      if Add(Add(currentOffset, padding), size) > blockSize {
        var sum := Add(size, alignment);
        AllocateNewBlock(if sum > blockSize then sum else blockSize);
        padding := Padding(blocks[|blocks| - 1].base, alignment);
      }
    }

    /** Hands out `size` bytes. While the sums stay below 2^64 the range is aligned and nothing
        handed out since the last reset overlaps it. */
    method Allocate(size: Size, alignment: Size) returns (ptr: nat)
      requires Usable() && alignment >= 1
      modifies this`blocks, this`currentOffset, this`given, this`owner
      ensures Usable() && ptr > 0 && Abs() == old(Abs()).Allocated(blockSize, os, size, alignment)
      ensures given == old(given) + [Range(ptr, size)]
      ensures old(Valid() && Abs().SumsFit(blockSize, size, alignment)) ==> Valid() && Aligned(ptr, alignment)
      ensures old(Valid() && Abs().Last().size + alignment < TWO_64) ==>
        (Valid() <==> old(Abs().SumsFit(blockSize, size, alignment)))
    {
      if Valid() {
        AllocatedOkIff(Abs(), blockSize, os, size, alignment);
        if Abs().SumsFit(blockSize, size, alignment) {
          AllocatedAligned(Abs(), blockSize, os, size, alignment);
        }
      }
      ghost var before := Abs();
      var padding := MakeRoom(size, alignment);
      ptr := TakeRange(padding, size);
      assert given == before.given + [Range(ptr, size)];
    }

    /** Takes the next `size` bytes of the last block after `padding`. */
    method TakeRange(padding: Size, size: Size) returns (ptr: nat)
      requires Usable()
      modifies this`currentOffset, this`given, this`owner
      ensures Usable() && ptr > 0 && Abs() == old(Abs()).WithRange(padding, size)
      ensures given == old(given) + [Range(ptr, size)] && blocks == old(blocks)
    {
      currentOffset := Add(currentOffset, padding);
      ptr := blocks[|blocks| - 1].base + currentOffset;
      currentOffset := Add(currentOffset, size);
      given := given + [Range(ptr, size)];
      owner := owner + [|blocks| - 1];
    }

    /** Builds an object; `tracked` when its type has a destructor to run. */
    method Make(size: Size, alignment: Size, tracked: bool) returns (obj: nat)
      requires Usable() && alignment >= 1
      modifies this`blocks, this`currentOffset, this`given, this`owner, this`cleanupHead, this`built
      ensures Usable()
      ensures Abs() == old(Abs().Made(blockSize, os, Request(size, alignment), tracked, NODE))
      ensures |given| > |old(given)| && given[|old(given)|] == Range(obj, size)
      ensures built == if tracked then old(built) + [obj] else old(built)
      ensures old(Valid() && Abs().MakeFits(blockSize, os, Request(size, alignment), tracked, NODE)) ==>
        Valid() && Aligned(obj, alignment)
    {
      obj := Build(Request(size, alignment), tracked, NODE);
    }

    /** An object and, when it is tracked, the cleanup node behind it. */
    method Build(item: Request, tracked: bool, node: Request) returns (obj: nat)
      requires Usable() && item.alignment >= 1 && node.alignment >= 1
      modifies this`blocks, this`currentOffset, this`given, this`owner, this`cleanupHead, this`built
      ensures Usable() && Abs() == old(Abs().Made(blockSize, os, item, tracked, node))
      ensures |given| > |old(given)| && given[|old(given)|] == Range(obj, item.size)
      ensures built == if tracked then old(built) + [obj] else old(built)
      ensures old(Valid() && Abs().MakeFits(blockSize, os, item, tracked, node)) ==>
        Valid() && Aligned(obj, item.alignment)
    {
      obj := Allocate(item.size, item.alignment);
      if tracked {
        AddNode(obj, node);
      }
    }

    /** Allocates the cleanup node of `obj` and links it. */
    method AddNode(obj: nat, node: Request)
      requires Usable() && obj > 0 && node.alignment >= 1
      modifies this`blocks, this`currentOffset, this`given, this`owner, this`cleanupHead, this`built
      ensures Usable() && Abs() == old(Abs()).Allocated(blockSize, os, node.size, node.alignment)
      ensures |given| == |old(given)| + 1 && forall k :: 0 <= k < |old(given)| ==> given[k] == old(given)[k]
      ensures built == old(built) + [obj]
      ensures old(Valid() && Abs().SumsFit(blockSize, node.size, node.alignment)) ==> Valid()
    {
      var mem := Allocate(node.size, node.alignment);
      ghost var l := Abs();
      Track(obj);
      assert Abs() == l;
    }

    /** Links a cleanup node for `obj` in front of the list. */
    method Track(obj: nat)
      requires CleanupOk() && obj > 0
      modifies this`cleanupHead, this`built
      ensures CleanupOk() && built == old(built) + [obj]
    {
      cleanupHead := Node(obj, cleanupHead);
      built := built + [obj];
      assert built[..|built| - 1] == old(built);
    }

    /** Runs the tracked destructors, last built first. */
    method RunDestructors()
      requires CleanupOk()
      modifies this`cleanupHead, this`built, this`destroyed
      ensures CleanupOk() && built == [] && destroyed == old(destroyed) + Reversed(old(built))
    {
      var curr := cleanupHead;
      ReversedHas(built);
      while curr.Node?
        invariant destroyed + Tracked(curr) == old(destroyed) + Reversed(old(built))
        invariant forall x :: x in Tracked(curr) ==> x > 0
        invariant built == old(built) && cleanupHead == old(cleanupHead)
        decreases curr
      {
        assert Tracked(curr) == [curr.obj] + Tracked(curr.next);
        assert curr.obj in Tracked(curr) && forall x :: x in Tracked(curr.next) ==> x in Tracked(curr);
        if curr.obj > 0 {
          destroyed := destroyed + [curr.obj];
        }
        curr := curr.next;
      }
      cleanupHead := End;
      built := [];
    }

    /** Destroys everything tracked and starts over with one fresh block. */
    method Reset()
      requires Usable()
      modifies this
      ensures Valid() && given == [] && built == [] && |blocks| == 1 && blocks[0].size == blockSize && currentOffset == 0
      ensures destroyed == old(destroyed) + Reversed(old(built))
    {
      RunDestructors();
      blocks := [];
      currentOffset := 0;
      given, owner := [], [];
      blocks := [Block(os([], blockSize), blockSize)];
    }

    /** The reported total is the memory in all blocks only while no block is oversized. */
    method TotalAllocated() returns (n: Size)
      requires Valid()
      ensures n <= TotalSize(blocks)
      ensures n == TotalSize(blocks) <==>
        |blocks| * blockSize < TWO_64 && forall i :: 0 <= i < |blocks| ==> blocks[i].size == blockSize
    {
      UnitsUndercount(blocks, blockSize);
      n := (|blocks| * blockSize) % TWO_64;
    }
  }

  lemma {:induction false} ReversedHas<T>(s: seq<T>)
    ensures forall x :: x in Reversed(s) <==> x in s
    decreases |s|
  {
    if s != [] {
      ReversedHas(s[..|s| - 1]);
      assert s == s[..|s| - 1] + [s[|s| - 1]];
    }
  }
}
