/**
 * Whole runs of the heap: any sequence of `kmalloc`, `kfree` of live pointers, and
 * allocations and frees of other frames by the rest of the kernel.
 */
module HeapRuns {
  import opened Common
  import opened PmmSpec
  import opened HeapSpec
  import opened Arith

  datatype Op = MallocOp(size: nat) | FreeOp(block: Block) | TakeFrame | GiveFrame(frame: nat)

  function Step(p: Pmm, h: Heap, op: Op): (Pmm, Heap)
  {
    match op
    case MallocOp(size) => var (p', h', _) := Malloc(p, h, size); (p', h')
    case FreeOp(b) => (p, Release(h, Ptr(b)))
    case TakeFrame => (AllocDirect(p).0, h)
    case GiveFrame(f) => (Free(p, f), h)
  }

  /** Callers free only live blocks, and the rest of the kernel never frees a heap page. */
  predicate Legal(h: Heap, op: Op)
  {
    match op
    case FreeOp(b) => b in LiveBlocks(h)
    case GiveFrame(f) => f !in h.pages
    case _ => true
  }

  predicate LegalRun(p: Pmm, h: Heap, ops: seq<Op>)
    decreases ops
  {
    ops == [] || (Legal(h, ops[0]) && var (p', h') := Step(p, h, ops[0]); LegalRun(p', h', ops[1..]))
  }

  function Run(p: Pmm, h: Heap, ops: seq<Op>): (Pmm, Heap)
    decreases ops
  {
    if ops == [] then (p, h) else var (p', h') := Step(p, h, ops[0]); Run(p', h', ops[1..])
  }

  lemma StepKeeps(p: Pmm, h: Heap, op: Op)
    requires HeapInv(h) && h.pages <= p.used && Legal(h, op)
    ensures var (p', h') := Step(p, h, op); HeapInv(h') && h'.pages <= p'.used
  {
    match op
    case MallocOp(size) => MallocEffect(p, h, size); AllocDirectEffect(p);
    case FreeOp(b) => ReleaseEffect(h, b);
    case TakeFrame => AllocDirectEffect(p);
    case GiveFrame(f) =>
  }

  /** Every legal run from a sound heap, in particular from the empty one, ends in a sound
      heap: blocks tile the heap pages up to lost spans, and no bad free ever happens. */
  lemma {:induction false} RunSound(p: Pmm, h: Heap, ops: seq<Op>)
    requires HeapInv(h) && h.pages <= p.used && LegalRun(p, h, ops)
    ensures var (p', h') := Run(p, h, ops); HeapInv(h') && h'.pages <= p'.used
    decreases ops
  {
    if ops != [] {
      StepKeeps(p, h, ops[0]);
      var (p', h') := Step(p, h, ops[0]);
      RunSound(p', h', ops[1..]);
    }
  }

  lemma EmptySound()
    ensures HeapInv(EMPTY)
  {
  }

  /** A live block survives, with its size, any legal run that does not free it. */
  lemma {:induction false} LiveUntilFreed(p: Pmm, h: Heap, ops: seq<Op>, b: Block)
    requires HeapInv(h) && h.pages <= p.used && LegalRun(p, h, ops)
    requires b in LiveBlocks(h) && FreeOp(b) !in ops
    ensures b in LiveBlocks(Run(p, h, ops).1)
    decreases ops
  {
    if ops != [] {
      StepKeeps(p, h, ops[0]);
      var (p', h') := Step(p, h, ops[0]);
      match ops[0] {
        case MallocOp(size) => MallocEffect(p, h, size);
        case FreeOp(c) => ReleaseEffect(h, c);
        case _ =>
      }
      LiveUntilFreed(p', h', ops[1..], b);
    }
  }

  // ---------------------------------------------------------------- equal-size requests

  /** How many blocks of `n` payload bytes fit in the block's footprint. */
  function Fits(n: nat): Block -> nat { (b: Block) => (b.size + HEADER) / (n + HEADER) }

  function Potential(h: Heap, n: nat): nat { Sum(h.blocks, Fits(n)) }

  predicate LiveSized(h: Heap, n: nat)
  {
    forall b :: b in h.blocks && !b.free ==> b.size == n
  }

  /** Allocating `n` bytes from a block leaves room for exactly as many blocks as before. */
  lemma CarvePotential(h: Heap, i: nat, n: nat)
    requires i < |h.blocks| && 8 <= n <= h.blocks[i].size
    ensures Potential(Carve(h, i, n), n) == Potential(h, n)
  {
    var b := h.blocks[i];
    var rest := b.size - n;
    assert h.blocks[i..i + 1] == [b];
    SumOne(b, Fits(n));
    DivShift(rest, n + HEADER);
    assert (n + HEADER) / (n + HEADER) == 1;
    if rest >= HEADER + ALIGN {
      var mid := [Block(b.addr, n, false), Block(b.addr + HEADER + n, rest - HEADER, true)];
      SumSplice(h.blocks, i, i + 1, mid, Fits(n));
      SumTwo(mid[0], mid[1], Fits(n));
    } else {
      assert rest / (n + HEADER) == 0;
      SumSplice(h.blocks, i, i + 1, [Block(b.addr, n, false)], Fits(n));
      SumOne(Block(b.addr, n, false), Fits(n));
    }
  }

  /** Merging never loses room, across page borders included. */
  lemma {:induction false} CoalescePotential(bs: seq<Block>, i: nat, n: nat)
    requires i < |bs|
    ensures Sum(Coalesce(bs, i), Fits(n)) >= Sum(bs, Fits(n))
    decreases |bs|
  {
    if i + 1 < |bs| && bs[i + 1].free && End(bs[i]) == bs[i + 1].addr {
      var m := bs[i].(size := bs[i].size + HEADER + bs[i + 1].size);
      SumSplice(bs, i, i + 2, [m], Fits(n));
      assert bs[i..i + 2] == [bs[i], bs[i + 1]];
      SumTwo(bs[i], bs[i + 1], Fits(n));
      SumOne(m, Fits(n));
      FloorAdd(bs[i].size + HEADER, bs[i + 1].size + HEADER, n + HEADER);
      CoalescePotential(bs[..i] + [m] + bs[i + 2..], i, n);
    }
  }

  lemma ReleasePotential(h: Heap, ptr: nat, n: nat)
    ensures Potential(Release(h, ptr), n) >= Potential(h, n)
  {
    if ptr != 0 {
      var k := IndexOf(h.blocks, ptr - HEADER, 0);
      if k < |h.blocks| && !h.blocks[k].free {
        hide Coalesce; hide Sum; hide Fits;
        MarkPotential(h.blocks, k, n);
        CoalescePotential(h.blocks[k := h.blocks[k].(free := true)], k, n);
      }
    }
  }

  lemma MarkPotential(bs: seq<Block>, k: nat, n: nat)
    requires k < |bs|
    ensures Sum(bs[k := bs[k].(free := true)], Fits(n)) == Sum(bs, Fits(n))
  {
    var b := bs[k].(free := true);
    assert bs[k := b] == bs[..k] + [b] + bs[k + 1..];
    assert bs[k..k + 1] == [bs[k]];
    SumSplice(bs, k, k + 1, [b], Fits(n));
    SumOne(b, Fits(n));
    SumOne(bs[k], Fits(n));
  }

  lemma GrowPotential(p: Pmm, h: Heap, n: nat)
    requires n <= PAGE_SIZE - HEADER
    ensures var (p', h', ok) := Grow(p, h); ok ==> Potential(h', n) >= Potential(h, n) + 1
  {
    var f := AllocDirect(p).1;
    if f != 0 {
      SumCat(h.blocks, [PageBlock(f)], Fits(n));
      SumOne(PageBlock(f), Fits(n));
      DivLower(PAGE_SIZE, n + HEADER, 1);
    }
  }

  // ---------------------------------------------------------------- counting live blocks

  function IsLive(): Block -> nat { (b: Block) => if b.free then 0 else 1 }

  lemma {:induction false} LiveCount(bs: seq<Block>)
    requires forall i, j :: 0 <= i < j < |bs| ==> bs[i].addr != bs[j].addr
    ensures Sum(bs, IsLive()) == |set b | b in bs && !b.free|
  {
    if bs != [] {
      var rest := bs[1..];
      LiveCount(rest);
      var s := set b | b in rest && !b.free;
      assert bs == [bs[0]] + rest;
      assert bs[0] !in rest;
      if bs[0].free {
        assert s == set b | b in bs && !b.free;
      } else {
        assert s + {bs[0]} == set b | b in bs && !b.free;
      }
    } else {
      assert (set b | b in bs && !b.free) == {};
    }
  }

  lemma {:induction false} NoRoom(bs: seq<Block>, n: nat)
    requires forall b :: b in bs ==> if b.free then b.size < n else b.size == n
    ensures Sum(bs, Fits(n)) == Sum(bs, IsLive())
  {
    if bs != [] {
      assert bs[0] in bs;
      assert forall b :: b in bs[1..] ==> b in bs;
      NoRoom(bs[1..], n);
      assert (n + HEADER) / (n + HEADER) == 1;
    }
  }

  /** When no free block can serve an `n`-byte request, the room left is exactly the blocks
      that are live. */
  lemma FullHeap(h: Heap, n: nat)
    requires Tiled(h) && LiveSized(h, n) && FirstFit(h.blocks, n, 0) == |h.blocks|
    ensures Potential(h, n) == |LiveBlocks(h)|
  {
    forall i, j | 0 <= i < j < |h.blocks| ensures h.blocks[i].addr != h.blocks[j].addr {
      Disjoint(h, i, j);
    }
    LiveCount(h.blocks);
    NoRoom(h.blocks, n);
  }

  // ---------------------------------------------------------------- the bound

  /** Largest number of simultaneously live blocks along the run. */
  function Peak(p: Pmm, h: Heap, ops: seq<Op>): (k: nat)
    ensures k >= |LiveBlocks(h)|
    decreases ops
  {
    var here := |LiveBlocks(h)|;
    if ops == [] then here
    else
      var (p', h') := Step(p, h, ops[0]);
      var later := Peak(p', h', ops[1..]);
      if later > here then later else here
  }

  predicate EqualSized(ops: seq<Op>, n: nat)
  {
    forall i :: 0 <= i < |ops| && ops[i].MallocOp? ==> AlignedSize(ops[i].size) == n
  }

  /** One `kmalloc`: the potential covers the pages, and a page is taken only when every
      block of the heap is live. */
  lemma MallocPages(p: Pmm, h: Heap, size: nat)
    requires HeapInv(h) && h.pages <= p.used
    requires 0 < AlignedSize(size) <= PAGE_SIZE - HEADER
    requires LiveSized(h, AlignedSize(size)) && Potential(h, AlignedSize(size)) >= |h.pages|
    ensures var n := AlignedSize(size);
      var (p', h', ptr) := Malloc(p, h, size);
      && LiveSized(h', n) && Potential(h', n) >= |h'.pages|
      && (h'.pages == h.pages || |h'.pages| <= |LiveBlocks(h)| + 1 == |LiveBlocks(h')|)
  {
    var n := AlignedSize(size);
    var (p', h', ptr) := Malloc(p, h, size);
    MallocEffect(p, h, size);
    if ptr != 0 {
      LiveSizedAdd(h, h', NewBlock(ptr, size), n);
      if NeedsPage(h, size) {
        PagePotential(p, h, n);
        hide Potential; hide Tiled; hide Malloc; hide Grow; hide Carve; hide AllocDirect; hide LiveBlocks; hide LiveSized;
        AllocDirectEffect(p);
        FreshBlock(h, ptr, size);
      } else {
        CarvePotential(h, FirstFit(h.blocks, n, 0), n);
      }
    }
  }

  lemma LiveSizedAdd(h: Heap, h': Heap, b: Block, n: nat)
    requires LiveSized(h, n) && LiveBlocks(h') == LiveBlocks(h) + {b} && b.size == n
    ensures LiveSized(h', n)
  {
    forall c | c in h'.blocks && !c.free ensures c.size == n { assert c in LiveBlocks(h'); }
  }

  lemma FreshBlock(h: Heap, ptr: nat, size: nat)
    requires ptr >= HEADER && !LivePtr(h, ptr)
    ensures NewBlock(ptr, size) !in LiveBlocks(h)
  {
    assert Ptr(NewBlock(ptr, size)) == ptr;
  }

  /** A page taken for an `n`-byte request: no room was left, and the page has some. */
  lemma PagePotential(p: Pmm, h: Heap, n: nat)
    requires HeapInv(h) && LiveSized(h, n) && 8 <= n <= PAGE_SIZE - HEADER && FirstFit(h.blocks, n, 0) == |h.blocks|
    requires Potential(h, n) >= |h.pages| && Grow(p, h).2 && AllocDirect(p).1 !in h.pages
    ensures |h.pages| <= |LiveBlocks(h)|
    ensures var h' := Carve(Grow(p, h).1, |h.blocks|, n); Potential(h', n) >= |h'.pages|
  {
    hide Tiled; hide LiveBlocks; hide AllocDirect;
    GrowPotential(p, h, n);
    CarvePotential(Grow(p, h).1, |h.blocks|, n);
    FullHeap(h, n);
  }

  lemma ReleasePages(h: Heap, b: Block, n: nat)
    requires HeapInv(h) && b in LiveBlocks(h) && LiveSized(h, n) && Potential(h, n) >= |h.pages|
    ensures var h' := Release(h, Ptr(b));
      LiveSized(h', n) && Potential(h', n) >= |h'.pages| && h'.pages == h.pages
  {
    var h' := Release(h, Ptr(b));
    ReleaseEffect(h, b);
    ReleasePotential(h, Ptr(b), n);
    forall c | c in h'.blocks && !c.free ensures c.size == n { assert c in LiveBlocks(h'); }
  }

  /** If every request rounds to the same size, the heap never holds more pages than the
      peak number of simultaneously live blocks. */
  lemma {:induction false} PagesWithinPeak(p: Pmm, h: Heap, ops: seq<Op>, n: nat)
    requires HeapInv(h) && h.pages <= p.used && LegalRun(p, h, ops) && EqualSized(ops, n)
    requires 0 < n <= PAGE_SIZE - HEADER && LiveSized(h, n) && Potential(h, n) >= |h.pages|
    ensures |Run(p, h, ops).1.pages| <= (if |h.pages| > Peak(p, h, ops) then |h.pages| else Peak(p, h, ops))
    decreases ops
  {
    if ops != [] {
      StepKeeps(p, h, ops[0]);
      var (p', h') := Step(p, h, ops[0]);
      match ops[0] {
        case MallocOp(size) => MallocPages(p, h, size);
        case FreeOp(b) => ReleasePages(h, b, n);
        case _ =>
      }
      PagesWithinPeak(p', h', ops[1..], n);
    }
  }

  lemma EmptyPagesWithinPeak(p: Pmm, ops: seq<Op>, n: nat)
    requires LegalRun(p, EMPTY, ops) && EqualSized(ops, n) && 0 < n <= PAGE_SIZE - HEADER
    ensures |Run(p, EMPTY, ops).1.pages| <= Peak(p, EMPTY, ops)
  {
    EmptySound();
    PagesWithinPeak(p, EMPTY, ops, n);
  }
}
