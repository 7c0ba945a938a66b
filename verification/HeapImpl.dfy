/** `kernel/mm/kmalloc.c` on header words in memory. */
module HeapImpl {
  import opened PmmSpec
  import opened HeapSpec
  import opened PmmImpl

  /** Memory words by byte address. */
  type Words = map<nat, nat>

  function Get(m: Words, a: nat): nat { if a in m then m[a] else 0 }

  // ---------------------------------------------------------------- the list in memory

  /** `struct heap_block`: size at 0, free at 4, next at 8. */
  function SizeAt(m: Words, a: nat): nat { Get(m, a) }
  function FreeAt(m: Words, a: nat): bool { Get(m, a + 4) != 0 }
  function NextAt(m: Words, a: nat): nat { Get(m, a + 8) }

  /** The address a list pointer to position `i` holds: NULL past the end. */
  function AddrAt(bs: seq<Block>, i: nat): nat { if i < |bs| then bs[i].addr else 0 }

  predicate Node(m: Words, bs: seq<Block>, i: nat)
    requires i < |bs|
  {
    && SizeAt(m, bs[i].addr) == bs[i].size
    && FreeAt(m, bs[i].addr) == bs[i].free
    && NextAt(m, bs[i].addr) == AddrAt(bs, i + 1)
  }

  ghost predicate Linked(m: Words, list: nat, bs: seq<Block>)
  {
    && list == AddrAt(bs, 0)
    && forall i :: 0 <= i < |bs| ==> Node(m, bs, i)
  }

  predicate Clear(b: Block, c: Block) { End(b) <= c.addr || End(c) <= b.addr }

  /** Blocks share no byte and none starts at NULL. */
  ghost predicate AllClear(bs: seq<Block>)
  {
    && (forall i, j :: 0 <= i < |bs| && 0 <= j < |bs| && i != j ==> Clear(bs[i], bs[j]))
    && (forall i :: 0 <= i < |bs| ==> bs[i].addr > 0)
  }

  lemma BlocksApart(h: Heap)
    requires HeapInv(h)
    ensures AllClear(h.blocks)
  {
    forall i, j | 0 <= i < |h.blocks| && 0 <= j < |h.blocks| && i != j ensures Clear(h.blocks[i], h.blocks[j]) {
      if i < j { Disjoint(h, i, j); } else { Disjoint(h, j, i); }
    }
  }

  /** Outside block `b` the two memories agree. */
  ghost predicate Outside(m: Words, m': Words, b: Block)
  {
    forall a: nat :: a < b.addr || a >= End(b) ==> Get(m', a) == Get(m, a)
  }

  lemma HeaderKept(m: Words, m': Words, b: Block, c: Block)
    requires Outside(m, m', b) && Clear(b, c)
    ensures SizeAt(m', c.addr) == SizeAt(m, c.addr) && FreeAt(m', c.addr) == FreeAt(m, c.addr)
    ensures NextAt(m', c.addr) == NextAt(m, c.addr)
  {
    if End(c) <= b.addr {
      assert c.addr + 8 < b.addr;
    }
  }

  predicate Placed(m: Words, mid: seq<Block>, j: nat, rest: nat)
    requires j < |mid|
  {
    && SizeAt(m, mid[j].addr) == mid[j].size && FreeAt(m, mid[j].addr) == mid[j].free
    && NextAt(m, mid[j].addr) == if j + 1 < |mid| then mid[j + 1].addr else rest
  }

  /** `skip` list positions from `k` on replaced by `mid`, whose headers are in place. */
  lemma SpliceLinked(m: Words, m': Words, list: nat, bs: seq<Block>, k: nat, skip: nat, mid: seq<Block>, b: Block, rest: nat)
    requires Linked(m, list, bs) && AllClear(bs) && 1 <= skip && k + skip <= |bs| && mid != []
    requires rest == AddrAt(bs, k + skip)
    requires mid[0].addr == bs[k].addr && Outside(m, m', b)
    requires forall j :: 0 <= j < |bs| && (j < k || j >= k + skip) ==> Clear(b, bs[j])
    requires forall j :: 0 <= j < |mid| ==> Placed(m', mid, j, rest)
    ensures Linked(m', list, bs[..k] + mid + bs[k + skip..])
  {
    var bs' := bs[..k] + mid + bs[k + skip..];
    forall i | 0 <= i < |bs'| ensures Node(m', bs', i) {
      if i < k {
        assert Node(m, bs, i);
        HeaderKept(m, m', b, bs[i]);
        assert i + 1 == k ==> bs'[i + 1] == mid[0];
        assert AddrAt(bs', i + 1) == AddrAt(bs, i + 1);
      } else if i >= k + |mid| {
        var j := i - |mid| + skip;
        assert bs'[i] == bs[j] && Node(m, bs, j);
        HeaderKept(m, m', b, bs[j]);
        assert i + 1 < |bs'| ==> bs'[i + 1] == bs[j + 1];
        assert AddrAt(bs', i + 1) == AddrAt(bs, j + 1);
      } else {
        assert bs'[i] == mid[i - k];
        assert i + 1 < k + |mid| ==> bs'[i + 1] == mid[i + 1 - k];
        assert i + 1 == k + |mid| && i + 1 < |bs'| ==> bs'[i + 1] == bs[k + skip];
        assert i + 1 == k + |mid| ==> AddrAt(bs', i + 1) == AddrAt(bs, k + skip);
        assert Placed(m', mid, i - k, rest);
      }
    }
  }

  /** The stores of `alloc_from_block`, in order. */
  function SplitWords(m: Words, block: nat, size: nat, remaining: nat): Words
  {
    var next := block + 12 + size;
    var m1 := if remaining >= 20 then
                var m0 := m[next + 4 := 1][next := remaining - 12];
                m0[next + 8 := NextAt(m0, block)][block + 8 := next]
              else m;
    m1[block + 4 := 0][block := size]
  }

  lemma SplitIs(m: Words, block: nat, size: nat, remaining: nat)
    ensures var m' := SplitWords(m, block, size, remaining);
      var next := block + 12 + size;
      && SizeAt(m', block) == size && !FreeAt(m', block)
      && (remaining < 20 ==> NextAt(m', block) == NextAt(m, block))
      && (remaining >= 20 ==>
            && NextAt(m', block) == next && SizeAt(m', next) == remaining - 12 && FreeAt(m', next)
            && NextAt(m', next) == NextAt(m, block))
      && forall a: nat :: a < block || a >= block + 12 + size + remaining ==> Get(m', a) == Get(m, a)
  {
  }

  lemma CarveLinked(m: Words, m': Words, list: nat, h: Heap, k: nat, size: nat)
    requires Linked(m, list, h.blocks) && AllClear(h.blocks) && k < |h.blocks| && size <= h.blocks[k].size
    requires m' == SplitWords(m, h.blocks[k].addr, size, h.blocks[k].size - size)
    ensures Linked(m', list, Carve(h, k, size).blocks) && Outside(m, m', h.blocks[k])
  {
    hide SplitWords;
    var b := h.blocks[k];
    SplitIs(m, b.addr, size, b.size - size);
    assert Node(m, h.blocks, k);
    if b.size - size >= 20 {
      SpliceLinked(m, m', list, h.blocks, k, 1,
                   [Block(b.addr, size, false), Block(b.addr + 12 + size, b.size - size - 12, true)], b, AddrAt(h.blocks, k + 1));
    } else {
      SpliceLinked(m, m', list, h.blocks, k, 1, [Block(b.addr, size, false)], b, AddrAt(h.blocks, k + 1));
    }
  }

  /** The header of free block `b` has been written with no successor, and nothing else. */
  ghost predicate FreshHeader(m: Words, m': Words, b: Block)
  {
    && SizeAt(m', b.addr) == b.size && FreeAt(m', b.addr) == b.free && NextAt(m', b.addr) == 0
    && Outside(m, m', b)
  }

  /** No payload byte of the blocks has changed. */
  ghost predicate PayloadsKept(m: Words, m': Words, bs: seq<Block>)
  {
    forall i, a: nat :: 0 <= i < |bs| && Ptr(bs[i]) <= a < End(bs[i]) ==> Get(m', a) == Get(m, a)
  }

  lemma AppendLinked(m: Words, m1: Words, list: nat, bs: seq<Block>, b: Block)
    requires Linked(m, list, bs) && AllClear(bs + [b]) && FreshHeader(m, m1, b)
    ensures bs == [] ==> list == 0 && Linked(m1, b.addr, [b]) && PayloadsKept(m, m1, bs)
    ensures bs != [] ==>
              var m2 := m1[bs[|bs| - 1].addr + 8 := b.addr];
              bs[|bs| - 1].addr != 0 && Linked(m2, list, bs + [b]) && PayloadsKept(m, m2, bs)
  {
    if bs != [] {
      var n := |bs| - 1;
      var m2 := m1[bs[n].addr + 8 := b.addr];
      var bs' := bs + [b];
      forall i | 0 <= i < |bs'| ensures Node(m2, bs', i) {
        AppendNode(m, m1, list, bs, b, i);
      }
      forall i, a: nat | 0 <= i < |bs| && Ptr(bs[i]) <= a < End(bs[i]) ensures Get(m2, a) == Get(m, a) {
        assert Clear(bs'[i], bs'[n + 1]) && (i != n ==> Clear(bs'[i], bs'[n]));
      }
      assert bs'[n].addr > 0;
    }
  }

  /** The fresh page and the last header lie in the heap's pages. */
  lemma AppendPages(m: Words, m1: Words, h: Heap, f: nat)
    requires HeapInv(h) && FreshHeader(m, m1, PageBlock(f))
    requires HeapInv(h.(pages := h.pages + {f}, blocks := h.blocks + [PageBlock(f)]))
    ensures h.blocks == [] ==> HeapOnly(m, m1, h.pages + {f})
    ensures h.blocks != [] ==>
              HeapOnly(m, m1[h.blocks[|h.blocks| - 1].addr + 8 := PageBlock(f).addr], h.pages + {f})
  {
    hide HeapInv;
    var n, h' := |h.blocks|, h.(pages := h.pages + {f}, blocks := h.blocks + [PageBlock(f)]);
    forall a: nat | !InPages(h'.pages, a)
      ensures Get(m1, a) == Get(m, a) && (n > 0 ==> a != h.blocks[n - 1].addr + 8) {
      NotInBlock(h', n, a);
      if n > 0 { NotInBlock(h', n - 1, a); }
    }
  }

  lemma NotInBlock(h: Heap, k: nat, a: nat)
    requires HeapInv(h) && k < |h.blocks| && !InPages(h.pages, a)
    ensures a < h.blocks[k].addr || a >= End(h.blocks[k])
  {
    if h.blocks[k].addr <= a < End(h.blocks[k]) { InsidePages(h, k, a); }
  }

  lemma AppendNode(m: Words, m1: Words, list: nat, bs: seq<Block>, b: Block, i: nat)
    requires bs != [] && Linked(m, list, bs) && AllClear(bs + [b]) && FreshHeader(m, m1, b) && i <= |bs|
    ensures Node(m1[bs[|bs| - 1].addr + 8 := b.addr], bs + [b], i)
  {
    var n, bs' := |bs| - 1, bs + [b];
    assert Clear(bs'[n], bs'[n + 1]);
    if i < |bs| {
      assert Node(m, bs, i) && Clear(bs'[n + 1], bs'[i]) && (i != n ==> Clear(bs'[n], bs'[i]));
      HeaderKept(m, m1, b, bs[i]);
    }
  }

  /** Every live payload is as it was. */
  ghost predicate LiveKept(m: Words, m': Words, h: Heap)
  {
    forall b, a: nat :: b in LiveBlocks(h) && Ptr(b) <= a < End(b) ==> Get(m', a) == Get(m, a)
  }

  lemma NothingChanged(m: Words, h: Heap)
    ensures LiveKept(m, m, h) && HeapOnly(m, m, h.pages)
  {
  }

  /** No word outside the heap's pages has changed. */
  ghost predicate HeapOnly(m: Words, m': Words, pages: set<nat>)
  {
    forall a: nat :: !InPages(pages, a) ==> Get(m', a) == Get(m, a)
  }

  lemma BlockInPages(m: Words, m': Words, h: Heap, k: nat)
    requires HeapInv(h) && k < |h.blocks| && Outside(m, m', h.blocks[k])
    ensures HeapOnly(m, m', h.pages)
  {
    forall a: nat | !InPages(h.pages, a) ensures Get(m', a) == Get(m, a) {
      if h.blocks[k].addr <= a < End(h.blocks[k]) { InsidePages(h, k, a); }
    }
  }

  lemma HeapOnlyTwice(m: Words, m1: Words, m2: Words, pages: set<nat>, pages1: set<nat>)
    requires HeapOnly(m, m1, pages) && HeapOnly(m1, m2, pages1) && pages <= pages1
    ensures HeapOnly(m, m2, pages1)
  {
  }

  lemma KeptLive(m: Words, m': Words, h: Heap)
    requires PayloadsKept(m, m', h.blocks)
    ensures LiveKept(m, m', h)
  {
    forall b, a: nat | b in LiveBlocks(h) && Ptr(b) <= a < End(b) ensures Get(m', a) == Get(m, a) {
      var i :| 0 <= i < |h.blocks| && h.blocks[i] == b;
    }
  }

  /** A change inside one free block keeps every live payload. */
  lemma CarveKept(m: Words, m': Words, h: Heap, k: nat)
    requires AllClear(h.blocks) && k < |h.blocks| && h.blocks[k].free && Outside(m, m', h.blocks[k])
    ensures LiveKept(m, m', h)
  {
    forall b, a: nat | b in LiveBlocks(h) && Ptr(b) <= a < End(b) ensures Get(m', a) == Get(m, a) {
      var i :| 0 <= i < |h.blocks| && h.blocks[i] == b;
      assert Clear(h.blocks[i], h.blocks[k]);
    }
  }

  lemma KeptTwice(m: Words, m1: Words, m2: Words, h: Heap, h1: Heap)
    requires LiveKept(m, m1, h) && LiveKept(m1, m2, h1) && LiveBlocks(h) <= LiveBlocks(h1)
    ensures LiveKept(m, m2, h)
  {
  }

  /** Position `k` absorbs its successor. */
  function Merged(bs: seq<Block>, k: nat): seq<Block>
    requires k + 1 < |bs|
  {
    bs[..k] + [bs[k].(size := bs[k].size + HEADER + bs[k + 1].size)] + bs[k + 2..]
  }

  lemma MergeLinked(m: Words, m': Words, list: nat, h: Heap, k: nat)
    requires Linked(m, list, h.blocks) && HeapInv(h) && k + 1 < |h.blocks|
    requires h.blocks[k].free && h.blocks[k + 1].free && End(h.blocks[k]) == h.blocks[k + 1].addr
    requires var a, next := h.blocks[k].addr, h.blocks[k + 1].addr;
      m' == m[a := SizeAt(m, a) + 12 + SizeAt(m, next)][a + 8 := NextAt(m, next)]
    ensures Linked(m', list, Merged(h.blocks, k)) && HeapInv(h.(blocks := Merged(h.blocks, k)))
    ensures LiveBlocks(h.(blocks := Merged(h.blocks, k))) == LiveBlocks(h) && LiveKept(m, m', h)
    ensures HeapOnly(m, m', h.pages)
  {
    hide HeapInv; hide Linked; hide LiveKept;
    var bs, b := h.blocks, h.blocks[k];
    BlocksApart(h);
    HeaderOf(m, list, bs, k);
    HeaderOf(m, list, bs, k + 1);
    var c := b.(size := b.size + 12 + bs[k + 1].size);
    SpliceLinked(m, m', list, bs, k, 2, [c], b, AddrAt(bs, k + 2));
    CarveKept(m, m', h, k);
    BlockInPages(m, m', h, k);
    MergeKeeps(h, k);
  }

  lemma LivePosition(h: Heap, ptr: nat) returns (k: nat)
    requires HeapInv(h) && LivePtr(h, ptr)
    ensures ptr >= 12 && k == IndexOf(h.blocks, ptr - 12, 0) && k < |h.blocks|
    ensures !h.blocks[k].free && h.blocks[k].addr == ptr - 12
  {
    var b :| b in LiveBlocks(h) && Ptr(b) == ptr;
    var i :| 0 <= i < |h.blocks| && h.blocks[i] == b;
    k := IndexOf(h.blocks, ptr - 12, 0);
    DistinctAddrs(h, i, k);
  }

  lemma MarkLinked(m: Words, list: nat, h: Heap, k: nat)
    requires Linked(m, list, h.blocks) && HeapInv(h) && k < |h.blocks| && !h.blocks[k].free
    ensures var h1 := h.(blocks := h.blocks[k := h.blocks[k].(free := true)]);
      var m1 := m[h.blocks[k].addr + 4 := 1];
      && HeapInv(h1) && Linked(m1, list, h1.blocks)
      && LiveKept(m, m1, h1) && HeapOnly(m, m1, h.pages)
  {
    hide HeapInv; hide Linked; hide LiveKept;
    var b := h.blocks[k].(free := true);
    var m1 := m[b.addr + 4 := 1];
    BlocksApart(h);
    HeaderOf(m, list, h.blocks, k);
    SpliceLinked(m, m1, list, h.blocks, k, 1, [b], h.blocks[k], AddrAt(h.blocks, k + 1));
    assert h.blocks[k := b] == h.blocks[..k] + [b] + h.blocks[k + 1..];
    MarkKeeps(h, k, true);
    BlockInPages(m, m1, h, k);
    BlocksApart(h.(blocks := h.blocks[k := b]));
    CarveKept(m, m1, h.(blocks := h.blocks[k := b]), k);
  }

  lemma SameLive(m: Words, m': Words, h1: Heap, h2: Heap)
    requires forall b: Block :: !b.free ==> (b in h2.blocks <==> b in h1.blocks)
    requires LiveKept(m, m', h1)
    ensures LiveKept(m, m', h2)
  {
  }

  lemma CoalesceStep(bs: seq<Block>, k: nat)
    requires k < |bs|
    ensures if k + 1 < |bs| && bs[k + 1].free && End(bs[k]) == bs[k + 1].addr
            then Coalesce(bs, k) == Coalesce(Merged(bs, k), k) else Coalesce(bs, k) == bs
  {
  }

  lemma NotNull(bs: seq<Block>, k: nat)
    requires AllClear(bs) && k < |bs|
    ensures bs[k].addr != 0
  {
  }

  lemma MergeKeeps(h: Heap, k: nat)
    requires HeapInv(h) && k + 1 < |h.blocks| && h.blocks[k].free && h.blocks[k + 1].free
    requires End(h.blocks[k]) == h.blocks[k + 1].addr
    ensures HeapInv(h.(blocks := Merged(h.blocks, k)))
    ensures LiveBlocks(h.(blocks := Merged(h.blocks, k))) == LiveBlocks(h)
  {
    MergeShaped(h, k);
    MergeTiled(h, k);
    hide Tiled; hide HeapSpec.Shaped;
    assert h.blocks == h.blocks[..k] + [h.blocks[k], h.blocks[k + 1]] + h.blocks[k + 2..];
  }

  // ---------------------------------------------------------------- the heap

  class KernelHeap {
    const pmm: PageAllocator
    var mem: Words
    var list: nat
    ghost var blocks: seq<Block>
    ghost var pages: set<nat>
    ghost var slack: seq<Span>

    constructor (p: PageAllocator, m: Words)
      requires p.Valid()
      ensures pmm == p && mem == m && Valid() && State() == EMPTY
    {
      pmm, mem, list := p, m, 0;
      blocks, pages, slack := [], {}, [];
      new;
      EmptyHeap();
    }

    ghost function State(): Heap
      reads this
    {
      Heap(pages, blocks, slack, false)
    }

    ghost predicate Valid()
      reads this, pmm, pmm.bitmap
    {
      pmm.Valid() && HeapInv(State()) && Linked(mem, list, blocks) && pages <= pmm.UsedPages()
    }

    /** The stores of `alloc_from_block`. */
    method Split(block: nat, size: nat, remaining: nat)
      modifies this`mem
      ensures mem == SplitWords(old(mem), block, size, remaining)
    {
      if remaining >= 20 {
        var next := block + 12 + size;
        mem := mem[next + 4 := 1];
        mem := mem[next := remaining - 12];
        mem := mem[next + 8 := NextAt(mem, block)];
        mem := mem[block + 8 := next];
      }
      mem := mem[block + 4 := 0];
      mem := mem[block := size];
    }

    /** `alloc_from_block` on the block at list position `k`. */
    method AllocFromBlock(block: nat, size: nat, ghost k: nat) returns (ptr: nat)
      requires Valid() && k < |blocks| && block == blocks[k].addr && blocks[k].free
      requires size <= blocks[k].size && size % 8 == 0
      modifies this`mem, this`blocks, this`slack
      ensures Valid() && State() == Carve(old(State()), k, size) && ptr == Ptr(old(blocks)[k])
      ensures Outside(old(mem), mem, old(blocks)[k])
    {
      hide HeapInv; hide UsedSet; hide ClearSet; hide Linked; hide Outside; hide AllClear; hide SplitWords;
      ghost var b, was := blocks[k], State();
      BlocksApart(State());
      CarveKeeps(State(), k, size);
      HeaderOf(mem, list, blocks, k);
      var remaining := SizeAt(mem, block) - size;
      Split(block, size, remaining);
      CarveLinked(old(mem), mem, list, was, k, size);
      blocks, slack := Carve(was, k, size).blocks, Carve(was, k, size).slack;
      return block + 12;
    }

    /** `new_block`: the header of a fresh page, not yet on the list. */
    method NewBlock() returns (block: nat)
      requires pmm.Valid()
      modifies this`mem, pmm, pmm.bitmap
      ensures pmm.Valid() && pmm.bitmap == old(pmm.bitmap)
      ensures var (p, f) := AllocDirect(old(pmm.State()));
        && pmm.State() == p
        && (f == 0 ==> block == 0 && mem == old(mem))
        && (f != 0 ==> block == PageBlock(f).addr && FreshHeader(old(mem), mem, PageBlock(f)))
    {
      hide UsedSet; hide ClearSet; hide FirstFree;
      AllocDirectEffect(pmm.State());
      var page := pmm.AllocPage();
      if page == 0 { return 0; }
      if page >= 0x100_0000 {
        pmm.FreePage(page);
        return 0;
      }
      block := 0xC000_0000 + page;
      mem := mem[block := 4084];
      mem := mem[block + 4 := 1];
      mem := mem[block + 8 := 0];
    }

    /** Hangs the fresh page of frame `f` behind the block at `last`, or makes it the list. */
    method Append(block: nat, last: nat, ghost f: nat, ghost m: Words)
      requires HeapInv(State()) && Linked(m, list, blocks) && FreshHeader(m, mem, PageBlock(f))
      requires HeapInv(State().(pages := pages + {f}, blocks := blocks + [PageBlock(f)]))
      requires block == PageBlock(f).addr && last == if blocks == [] then 0 else blocks[|blocks| - 1].addr
      modifies this`mem, this`list, this`blocks, this`pages
      ensures State() == old(State()).(pages := old(pages) + {f}, blocks := old(blocks) + [PageBlock(f)])
      ensures Linked(mem, list, blocks) && PayloadsKept(m, mem, old(blocks)) && HeapOnly(m, mem, pages)
    {
      hide HeapInv; hide Linked; hide AllClear; hide FreshHeader; hide PayloadsKept;
      BlocksApart(State().(pages := pages + {f}, blocks := blocks + [PageBlock(f)]));
      AppendLinked(m, mem, list, blocks, PageBlock(f));
      AppendPages(m, mem, State(), f);
      hide HeapOnly;
      if last == 0 {
        list := block;
      } else {
        mem := mem[last + 8 := block];
      }
      pages, blocks := pages + {f}, blocks + [PageBlock(f)];
      assert last == 0 ==> blocks == [PageBlock(f)];
    }

    /** The walk of `kmalloc`: the first block that fits and the one before it. */
    method FindFit(n: nat) returns (current: nat, last: nat, ghost k: nat)
      requires Linked(mem, list, blocks) && AllClear(blocks)
      ensures k == FirstFit(blocks, n, 0) && current == AddrAt(blocks, k)
      ensures last == if k == 0 then 0 else blocks[k - 1].addr
    {
      hide Linked;
      k := 0;
      current, last := list, 0;
      if blocks != [] { HeaderOf(mem, list, blocks, 0); }
      ListHead(mem, list, blocks);
      while current != 0
        invariant k <= |blocks| && current == AddrAt(blocks, k)
        invariant last == if k == 0 then 0 else blocks[k - 1].addr
        invariant FirstFit(blocks, n, 0) == FirstFit(blocks, n, k)
        decreases |blocks| - k
      {
        HeaderOf(mem, list, blocks, k);
        if FreeAt(mem, current) && SizeAt(mem, current) >= n { return; }
        last := current;
        current := NextAt(mem, current);
        k := k + 1;
      }
    }

    /** Grows the heap by one page behind `last`; false when there is none to be had. */
    method GrowBehind(last: nat) returns (block: nat)
      requires Valid() && last == if blocks == [] then 0 else blocks[|blocks| - 1].addr
      modifies this`mem, this`list, this`blocks, this`pages, pmm, pmm.bitmap
      ensures Valid() && (pmm.State(), State(), block != 0) == Grow(old(pmm.State()), old(State()))
      ensures block != 0 ==> block == AddrAt(blocks, |old(blocks)|)
      ensures PayloadsKept(old(mem), mem, old(blocks)) && HeapOnly(old(mem), mem, pages)
    {
      NothingChanged(mem, State());
      hide HeapInv; hide Linked; hide FreshHeader; hide HeapOnly; hide LiveKept; hide FirstFree; hide UsedSet; hide ClearSet;
      AllocDirectEffect(pmm.State());
      GrowKeeps(pmm.State(), State());
      ghost var f := AllocDirect(pmm.State()).1;
      block := NewBlock();
      if block != 0 {
        Append(block, last, f, old(mem));
      }
    }

    /** `kmalloc`; 0 is NULL.  Payloads of live blocks are untouched. */
    method Kmalloc(size: nat) returns (ptr: nat)
      requires Valid()
      modifies this, pmm, pmm.bitmap
      ensures Valid() && (pmm.State(), State(), ptr) == Malloc(old(pmm.State()), old(State()), size)
      ensures LiveKept(old(mem), mem, old(State())) && HeapOnly(old(mem), mem, pages)
    {
      NothingChanged(mem, State());
      hide HeapOnly;
      hide HeapInv; hide Linked; hide FirstFree; hide UsedSet; hide ClearSet; hide PayloadsKept; hide LiveKept;
      hide AllocDirect; hide Carve; hide Outside; hide AllClear;
      var n := AlignedSize(size);
      if n == 0 || n > 4084 { return 0; }
      BlocksApart(State());
      ListHead(mem, list, blocks);
      if list == 0 {
        var first := GrowBehind(0);
        KeptLive(old(mem), mem, old(State()));
        if first == 0 { return 0; }
        BlocksApart(State());
      }
      ghost var m1, h1 := mem, State();
      var current, last, k := FindFit(n);
      if current == 0 {
        assert old(list) != 0;
        current := GrowBehind(last);
        HeapOnlyTwice(old(mem), m1, mem, h1.pages, pages);
        KeptLive(m1, mem, h1);
        if current == 0 { return 0; }
        BlocksApart(State());
      }
      ghost var m2, h2 := mem, State();
      ptr := AllocFromBlock(current, n, k);
      BlockInPages(m2, mem, h2, k);
      HeapOnlyTwice(old(mem), m2, mem, h2.pages, h2.pages);
      CarveKept(m2, mem, h2, k);
      KeptTwice(old(mem), m2, mem, old(State()), h2);
    }

    // ------------------------------------------------------------ kfree

    /** `coalesce_next` on the block at list position `k`. */
    method CoalesceNext(block: nat, ghost k: nat)
      requires HeapInv(State()) && Linked(mem, list, blocks) && k < |blocks| && block == blocks[k].addr && blocks[k].free
      modifies this`mem, this`blocks
      ensures State() == old(State()).(blocks := Coalesce(old(blocks), k))
      ensures HeapInv(State()) && Linked(mem, list, blocks) && LiveKept(old(mem), mem, old(State()))
      ensures HeapOnly(old(mem), mem, pages)
    {
      NothingChanged(mem, State());
      hide HeapOnly;
      hide HeapInv; hide Linked; hide LiveKept; hide AllClear; hide Coalesce; hide LiveBlocks;
      ghost var bs := blocks;
      HeaderOf(mem, list, blocks, k);
      BlocksApart(State());
      while NextAt(mem, block) != 0 && FreeAt(mem, NextAt(mem, block))
            && block + 12 + SizeAt(mem, block) == NextAt(mem, block)
        invariant HeapInv(State()) && Linked(mem, list, blocks) && AllClear(blocks) && k < |blocks|
        invariant Node(mem, blocks, k) && blocks[k].addr == block && blocks[k].free
        invariant Coalesce(blocks, k) == Coalesce(bs, k) && LiveKept(old(mem), mem, old(State()))
        invariant LiveBlocks(State()) == LiveBlocks(old(State()))
        invariant HeapOnly(old(mem), mem, pages)
        invariant pages == old(pages) && slack == old(slack) && list == old(list)
        decreases |blocks|
      {
        HeaderOf(mem, list, blocks, k + 1);
        CoalesceStep(blocks, k);
        ghost var m, h := mem, State();
        var next := NextAt(mem, block);
        mem := mem[block := SizeAt(mem, block) + 12 + SizeAt(mem, next)];
        mem := mem[block + 8 := NextAt(mem, next)];
        MergeLinked(m, mem, list, h, k);
        blocks := Merged(blocks, k);
        HeaderOf(mem, list, blocks, k);
        BlocksApart(State());
        KeptTwice(old(mem), m, mem, old(State()), h);
        HeapOnlyTwice(old(mem), m, mem, pages, pages);
      }
      CoalesceStep(blocks, k);
      if k + 1 < |blocks| {
        HeaderOf(mem, list, blocks, k + 1);
        NotNull(blocks, k + 1);
      }
    }

    /** `kfree` of NULL or of a live pointer. */
    method Kfree(ptr: nat)
      requires Valid() && (ptr == 0 || LivePtr(State(), ptr))
      modifies this`mem, this`blocks
      ensures Valid() && State() == Release(old(State()), ptr)
      ensures LiveKept(old(mem), mem, State()) && HeapOnly(old(mem), mem, pages)
    {
      NothingChanged(mem, State());
      hide HeapOnly;
      hide HeapInv; hide Linked; hide LiveKept; hide Coalesce; hide UsedSet; hide ClearSet; hide LiveBlocks;
      if ptr == 0 { return; }
      ghost var k := LivePosition(State(), ptr);
      var block := ptr - 12;
      ghost var h := State();
      MarkLinked(mem, list, h, k);
      mem := mem[block + 4 := 1];
      blocks := blocks[k := blocks[k].(free := true)];
      ghost var m1, h1 := mem, State();
      CoalesceNext(block, k);
      CoalesceLive(h1.blocks, k);
      KeptTwice(old(mem), m1, mem, h1, h1);
      HeapOnlyTwice(old(mem), m1, mem, pages, pages);
      SameLive(old(mem), mem, h1, State());
    }
  }

  lemma HeaderOf(m: Words, list: nat, bs: seq<Block>, k: nat)
    requires Linked(m, list, bs) && k < |bs|
    ensures Node(m, bs, k)
  {
  }

  lemma ListHead(m: Words, list: nat, bs: seq<Block>)
    requires Linked(m, list, bs) && AllClear(bs)
    ensures list == 0 <==> bs == []
    ensures list == AddrAt(bs, 0)
  {
  }

  lemma EmptyHeap()
    ensures HeapInv(EMPTY)
  {
  }
}
