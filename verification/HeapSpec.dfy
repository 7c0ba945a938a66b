/**
 * The kernel heap as a value: the block list in list order (which is not address order), the
 * pages it took, and the bytes lost to allocations too tight to split.
 * `HeapImpl.KernelHeap` refines these functions down to header words in memory.
 */
module HeapSpec {
  import opened Common
  import opened PmmSpec

  /** `sizeof(heap_block)` on i386. */
  const HEADER: nat := 12
  const ALIGN: nat := 8
  const BASE: nat := 0xC0000000

  /** A block's header sits at `addr`; its payload of `size` bytes follows. */
  datatype Block = Block(addr: nat, size: nat, free: bool)
  datatype Span = Span(start: nat, len: nat)

  /** `badFree` latches a `kfree` of something that is not a live pointer. */
  datatype Heap = Heap(pages: set<nat>, blocks: seq<Block>, slack: seq<Span>, badFree: bool)

  const EMPTY := Heap({}, [], [], false)

  function End(b: Block): nat { b.addr + HEADER + b.size }
  function Ptr(b: Block): nat { b.addr + HEADER }

  // ---------------------------------------------------------------- operations

  /** `align_size`: the size rounded up to a multiple of 8, 0 when it is refused. */
  function AlignedSize(size: nat): (n: nat)
    ensures n % ALIGN == 0
    ensures n != 0 ==> size <= n < size + ALIGN
    ensures n == 0 <==> size == 0 || size > 0xFFFFFFFF - (ALIGN - 1)
  {
    if size == 0 || size > 0xFFFFFFFF - (ALIGN - 1) then 0
    else (size + ALIGN - 1) / ALIGN * ALIGN
  }

  /** Index of the first free block of at least `n` bytes at or after `i`; |bs| if none. */
  function FirstFit(bs: seq<Block>, n: nat, i: nat): (k: nat)
    requires i <= |bs|
    ensures i <= k <= |bs|
    ensures k < |bs| ==> bs[k].free && bs[k].size >= n
    ensures forall j :: i <= j < k ==> !(bs[j].free && bs[j].size >= n)
    decreases |bs| - i
  {
    if i == |bs| || (bs[i].free && bs[i].size >= n) then i else FirstFit(bs, n, i + 1)
  }

  /** `new_block`: a whole fresh page as one free block. */
  function PageBlock(f: nat): Block { Block(BASE + PAGE_SIZE * f, PAGE_SIZE - HEADER, true) }

  /** `alloc_from_block`: split when a header and 8 bytes are left over, otherwise shrink
      and lose the rest. */
  function Carve(h: Heap, i: nat, n: nat): Heap
    requires i < |h.blocks| && n <= h.blocks[i].size
  {
    var b := h.blocks[i];
    var rest := b.size - n;
    if rest >= HEADER + ALIGN then
      h.(blocks := h.blocks[..i]
                   + [Block(b.addr, n, false), Block(b.addr + HEADER + n, rest - HEADER, true)]
                   + h.blocks[i + 1..])
    else
      h.(blocks := h.blocks[..i] + [Block(b.addr, n, false)] + h.blocks[i + 1..],
         slack := h.slack + [Span(b.addr + HEADER + n, rest)])
  }

  /** Appends a fresh page to the list; frame 0 stands for failure. */
  function Grow(p: Pmm, h: Heap): (Pmm, Heap, bool)
  {
    var (p', f) := AllocDirect(p);
    if f == 0 then (p, h, false)
    else (p', h.(pages := h.pages + {f}, blocks := h.blocks + [PageBlock(f)]), true)
  }

  /** `kmalloc`; 0 stands for NULL. */
  function Malloc(p: Pmm, h: Heap, size: nat): (Pmm, Heap, nat)
  {
    var n := AlignedSize(size);
    if n == 0 || n > PAGE_SIZE - HEADER then (p, h, 0)
    else
      var k := FirstFit(h.blocks, n, 0);
      if k < |h.blocks| then (p, Carve(h, k, n), Ptr(h.blocks[k]))
      else
        var (p', h', ok) := Grow(p, h);
        if !ok then (p, h, 0)
        else (p', Carve(h', k, n), Ptr(h'.blocks[k]))
  }

  /** `coalesce_next`: absorb list successors while they are free and adjacent in memory. */
  function Coalesce(bs: seq<Block>, i: nat): seq<Block>
    requires i < |bs|
    decreases |bs|
  {
    if i + 1 < |bs| && bs[i + 1].free && End(bs[i]) == bs[i + 1].addr then
      Coalesce(bs[..i] + [bs[i].(size := bs[i].size + HEADER + bs[i + 1].size)] + bs[i + 2..], i)
    else bs
  }

  /** Index of the block with header at `a`; |bs| if none. */
  function IndexOf(bs: seq<Block>, a: int, i: nat): (k: nat)
    requires i <= |bs|
    ensures i <= k <= |bs|
    ensures k < |bs| ==> bs[k].addr == a
    ensures forall j :: i <= j < k ==> bs[j].addr != a
    decreases |bs| - i
  {
    if i == |bs| || bs[i].addr == a then i else IndexOf(bs, a, i + 1)
  }

  /** `kfree`. */
  function Release(h: Heap, ptr: nat): Heap
  {
    if ptr == 0 then h
    else
      var k := IndexOf(h.blocks, ptr - HEADER, 0);
      if k == |h.blocks| || h.blocks[k].free then h.(badFree := true)
      else h.(blocks := Coalesce(h.blocks[k := h.blocks[k].(free := true)], k))
  }

  // ---------------------------------------------------------------- sums over a list

  function Sum<T>(ts: seq<T>, w: T -> nat): nat
  {
    if ts == [] then 0 else w(ts[0]) + Sum(ts[1..], w)
  }

  lemma {:induction false} SumCat<T>(a: seq<T>, b: seq<T>, w: T -> nat)
    ensures Sum(a + b, w) == Sum(a, w) + Sum(b, w)
  {
    if a == [] {
      assert a + b == b;
    } else {
      SumCat(a[1..], b, w);
      assert (a + b)[1..] == a[1..] + b;
    }
  }

  /** Replacing the stretch `i .. j` of a list by `mid`. */
  lemma SumSplice<T>(ts: seq<T>, i: nat, j: nat, mid: seq<T>, w: T -> nat)
    requires i <= j <= |ts|
    ensures Sum(ts[..i] + mid + ts[j..], w) + Sum(ts[i..j], w) == Sum(ts, w) + Sum(mid, w)
  {
    SumCat(ts[..i] + mid, ts[j..], w);
    SumCat(ts[..i], mid, w);
    SumCat(ts[..i], ts[i..j], w);
    SumCat(ts[..i] + ts[i..j], ts[j..], w);
    assert ts == ts[..i] + ts[i..j] + ts[j..];
  }

  lemma SumOne<T>(t: T, w: T -> nat)
    ensures Sum([t], w) == w(t)
  {
    assert [t][1..] == [];
  }

  lemma SumTwo<T>(s: T, t: T, w: T -> nat)
    ensures Sum([s, t], w) == w(s) + w(t)
  {
    assert [s, t] == [s] + [t];
    SumCat([s], [t], w);
    SumOne(s, w);
    SumOne(t, w);
  }

  lemma {:induction false} SumAt<T>(ts: seq<T>, i: nat, w: T -> nat)
    requires i < |ts|
    ensures w(ts[i]) <= Sum(ts, w)
  {
    if i > 0 { SumAt(ts[1..], i - 1, w); }
  }

  lemma {:induction false} SumAtTwo<T>(ts: seq<T>, i: nat, j: nat, w: T -> nat)
    requires i < j < |ts|
    ensures w(ts[i]) + w(ts[j]) <= Sum(ts, w)
  {
    if i > 0 { SumAtTwo(ts[1..], i - 1, j - 1, w); } else { SumAt(ts[1..], j - 1, w); }
  }

  // ---------------------------------------------------------------- invariant

  /** Does byte `x` lie in the block, header included? */
  function Covers(x: nat): Block -> nat { (b: Block) => if b.addr <= x < End(b) then 1 else 0 }
  function Lost(x: nat): Span -> nat { (s: Span) => if s.start <= x < s.start + s.len then 1 else 0 }

  predicate InPages(pages: set<nat>, x: nat) { BASE <= x && (x - BASE) / PAGE_SIZE in pages }

  /** Every byte of a heap page lies in exactly one block or exactly one lost span, and no
      block or span reaches outside the heap pages. */
  ghost predicate Tiled(h: Heap)
  {
    forall x: nat :: Sum(h.blocks, Covers(x)) + Sum(h.slack, Lost(x)) == if InPages(h.pages, x) then 1 else 0
  }

  predicate WordBlock(b: Block) { b.addr % 4 == 0 && b.size % 4 == 0 && b.addr >= BASE }

  predicate Shaped(h: Heap)
  {
    && (forall i :: 0 <= i < |h.blocks| ==> WordBlock(h.blocks[i]))
    && (forall i :: 0 <= i < |h.slack| ==> h.slack[i].len <= 16)
  }

  ghost predicate HeapInv(h: Heap) { Tiled(h) && Shaped(h) && !h.badFree }

  /** Footprints are pairwise disjoint although the list is not address-ordered. */
  lemma Disjoint(h: Heap, i: nat, j: nat)
    requires Tiled(h) && i < j < |h.blocks|
    ensures End(h.blocks[i]) <= h.blocks[j].addr || End(h.blocks[j]) <= h.blocks[i].addr
  {
    var x := if h.blocks[i].addr < h.blocks[j].addr then h.blocks[j].addr else h.blocks[i].addr;
    SumAtTwo(h.blocks, i, j, Covers(x));
  }

  /** Every byte of a block lies in a heap page. */
  lemma InsidePages(h: Heap, i: nat, x: nat)
    requires Tiled(h) && i < |h.blocks| && h.blocks[i].addr <= x < End(h.blocks[i])
    ensures InPages(h.pages, x)
  {
    SumAt(h.blocks, i, Covers(x));
  }

  // ---------------------------------------------------------------- what each operation keeps

  /** Splitting or shrinking a block moves no byte between blocks or in or out of the heap. */
  lemma CarveCover(h: Heap, i: nat, n: nat, x: nat)
    requires i < |h.blocks| && n <= h.blocks[i].size
    ensures var h' := Carve(h, i, n);
      Sum(h'.blocks, Covers(x)) + Sum(h'.slack, Lost(x)) == Sum(h.blocks, Covers(x)) + Sum(h.slack, Lost(x))
  {
    var b := h.blocks[i];
    var rest := b.size - n;
    assert h.blocks[i..i + 1] == [b];
    SumOne(b, Covers(x));
    if rest >= HEADER + ALIGN {
      var mid := [Block(b.addr, n, false), Block(b.addr + HEADER + n, rest - HEADER, true)];
      SumSplice(h.blocks, i, i + 1, mid, Covers(x));
      SumTwo(mid[0], mid[1], Covers(x));
    } else {
      SumSplice(h.blocks, i, i + 1, [Block(b.addr, n, false)], Covers(x));
      SumOne(Block(b.addr, n, false), Covers(x));
      SumCat(h.slack, [Span(b.addr + HEADER + n, rest)], Lost(x));
      SumOne(Span(b.addr + HEADER + n, rest), Lost(x));
    }
  }

  lemma CarveShaped(h: Heap, i: nat, n: nat)
    requires Shaped(h) && i < |h.blocks| && n <= h.blocks[i].size && n % ALIGN == 0
    ensures Shaped(Carve(h, i, n))
  {
    WordPieces(h.blocks[i], n);
    hide WordBlock;
  }

  lemma WordPieces(b: Block, n: nat)
    requires WordBlock(b) && n % ALIGN == 0 && n <= b.size
    ensures WordBlock(Block(b.addr, n, false))
    ensures b.size - n >= HEADER ==> WordBlock(Block(b.addr + HEADER + n, b.size - n - HEADER, true))
    ensures b.size - n < HEADER + ALIGN ==> b.size - n <= 16
  {
    var a, s, k := b.addr / 4, b.size / 4, n / 8;
    assert b.addr == 4 * a && b.size == 4 * s && n == 8 * k;
    assert b.addr + 12 + n == 4 * (a + 3 + 2 * k);
    assert b.size - n == 4 * (s - 2 * k);
  }

  lemma WordSum(b: Block, c: Block)
    requires WordBlock(b) && WordBlock(c)
    ensures WordBlock(b.(size := b.size + HEADER + c.size))
  {
  }

  lemma CarvePages(h: Heap, i: nat, n: nat)
    requires i < |h.blocks| && n <= h.blocks[i].size
    ensures Carve(h, i, n).pages == h.pages && Carve(h, i, n).badFree == h.badFree
  {
  }

  lemma CarveKeeps(h: Heap, i: nat, n: nat)
    requires HeapInv(h) && i < |h.blocks| && n <= h.blocks[i].size && n % ALIGN == 0
    ensures HeapInv(Carve(h, i, n))
  {
    CarveShaped(h, i, n);
    hide Sum; hide Covers; hide Lost; hide InPages; hide Shaped; hide Carve;
    forall x: nat { CarveCover(h, i, n, x); }
    CarvePages(h, i, n);
  }

  lemma PageCover(f: nat, x: nat)
    ensures Covers(x)(PageBlock(f)) == if BASE <= x && (x - BASE) / PAGE_SIZE == f then 1 else 0
  {
  }

  lemma GrowKeeps(p: Pmm, h: Heap)
    requires HeapInv(h) && h.pages <= p.used
    ensures HeapInv(Grow(p, h).1)
  {
    AllocDirectEffect(p);
    var f := AllocDirect(p).1;
    if f != 0 {
      hide Tiled; hide AllocDirect; hide WordBlock; hide PageBlock;
      GrowTiled(h, f);
      PageWords(f);
    }
  }

  lemma PageWords(f: nat)
    ensures WordBlock(PageBlock(f))
  {
    assert 4096 * f == 4 * (1024 * f);
  }

  lemma GrowTiled(h: Heap, f: nat)
    requires Tiled(h) && f !in h.pages
    ensures Tiled(h.(pages := h.pages + {f}, blocks := h.blocks + [PageBlock(f)]))
  {
    hide Sum; hide Covers; hide Lost; hide InPages; hide PageBlock;
    forall x: nat { GrowCover(h, f, x); }
  }

  /** A fresh page adds its own bytes, in one block. */
  lemma GrowCover(h: Heap, f: nat, x: nat)
    requires f !in h.pages
    requires Sum(h.blocks, Covers(x)) + Sum(h.slack, Lost(x)) == if InPages(h.pages, x) then 1 else 0
    ensures Sum(h.blocks + [PageBlock(f)], Covers(x)) + Sum(h.slack, Lost(x))
            == if InPages(h.pages + {f}, x) then 1 else 0
  {
    SumCat(h.blocks, [PageBlock(f)], Covers(x));
    SumOne(PageBlock(f), Covers(x));
    PageCover(f, x);
  }

  /** In a row of split blocks every other payload is 8-aligned. */
  lemma SplitAlignment(h: Heap, i: nat, n: nat)
    requires i < |h.blocks| && n <= h.blocks[i].size && n % ALIGN == 0
    requires h.blocks[i].size - n >= HEADER + ALIGN && h.blocks[i].addr % 4 == 0
    ensures var bs := Carve(h, i, n).blocks; Ptr(bs[i + 1]) % ALIGN == 0 <==> Ptr(bs[i]) % ALIGN != 0
  {
    var bs := Carve(h, i, n).blocks;
    assert bs[i].addr == h.blocks[i].addr && bs[i + 1].addr == h.blocks[i].addr + 12 + n;
  }

  /** Merging two adjacent blocks covers the same bytes. */
  lemma MergeCover(bs: seq<Block>, i: nat, x: nat)
    requires i + 1 < |bs| && End(bs[i]) == bs[i + 1].addr
    ensures Sum(bs[..i] + [bs[i].(size := bs[i].size + HEADER + bs[i + 1].size)] + bs[i + 2..], Covers(x))
            == Sum(bs, Covers(x))
  {
    var m := bs[i].(size := bs[i].size + HEADER + bs[i + 1].size);
    SumSplice(bs, i, i + 2, [m], Covers(x));
    assert bs[i..i + 2] == [bs[i], bs[i + 1]];
    SumTwo(bs[i], bs[i + 1], Covers(x));
    SumOne(m, Covers(x));
  }

  lemma MergeTiled(h: Heap, i: nat)
    requires Tiled(h) && i + 1 < |h.blocks| && End(h.blocks[i]) == h.blocks[i + 1].addr
    ensures var bs := h.blocks;
      Tiled(h.(blocks := bs[..i] + [bs[i].(size := bs[i].size + HEADER + bs[i + 1].size)] + bs[i + 2..]))
  {
    hide Sum; hide Covers; hide Lost; hide InPages;
    forall x: nat { MergeCover(h.blocks, i, x); }
  }

  lemma MergeShaped(h: Heap, i: nat)
    requires Shaped(h) && i + 1 < |h.blocks|
    ensures var bs := h.blocks;
      Shaped(h.(blocks := bs[..i] + [bs[i].(size := bs[i].size + HEADER + bs[i + 1].size)] + bs[i + 2..]))
  {
    var bs := h.blocks;
    var m := bs[i].(size := bs[i].size + HEADER + bs[i + 1].size);
    var bs' := bs[..i] + [m] + bs[i + 2..];
    WordSum(bs[i], bs[i + 1]);
    hide WordBlock;
    forall j | 0 <= j < |bs'| ensures WordBlock(bs'[j]) {
      assert bs'[j] == if j < i then bs[j] else if j == i then m else bs[j + 1];
    }
  }

  lemma {:induction false} CoalesceKeeps(h: Heap, i: nat)
    requires HeapInv(h) && i < |h.blocks|
    ensures HeapInv(h.(blocks := Coalesce(h.blocks, i)))
    decreases |h.blocks|
  {
    hide Tiled; hide Shaped;
    var bs := h.blocks;
    if i + 1 < |bs| && bs[i + 1].free && End(bs[i]) == bs[i + 1].addr {
      var m := bs[i].(size := bs[i].size + HEADER + bs[i + 1].size);
      MergeShaped(h, i);
      MergeTiled(h, i);
      CoalesceKeeps(h.(blocks := bs[..i] + [m] + bs[i + 2..]), i);
    }
  }

  lemma MarkKeeps(h: Heap, i: nat, free: bool)
    requires HeapInv(h) && i < |h.blocks|
    ensures HeapInv(h.(blocks := h.blocks[i := h.blocks[i].(free := free)]))
  {
    var b := h.blocks[i].(free := free);
    var h' := h.(blocks := h.blocks[i := b]);
    forall x: nat ensures Sum(h'.blocks, Covers(x)) == Sum(h.blocks, Covers(x)) {
      SumSplice(h.blocks, i, i + 1, [b], Covers(x));
      assert h'.blocks == h.blocks[..i] + [b] + h.blocks[i + 1..];
      assert h.blocks[i..i + 1] == [h.blocks[i]];
      SumOne(h.blocks[i], Covers(x));
      SumOne(b, Covers(x));
    }
  }

  // ---------------------------------------------------------------- live blocks

  function LiveBlocks(h: Heap): set<Block> { set b | b in h.blocks && !b.free }

  predicate LivePtr(h: Heap, ptr: nat) { exists b :: b in LiveBlocks(h) && Ptr(b) == ptr }

  /** Two list positions never hold the same header address. */
  lemma DistinctAddrs(h: Heap, i: nat, j: nat)
    requires Tiled(h) && i < |h.blocks| && j < |h.blocks| && h.blocks[i].addr == h.blocks[j].addr
    ensures i == j
  {
    if i < j { Disjoint(h, i, j); } else if j < i { Disjoint(h, j, i); }
  }

  lemma CarveLive(h: Heap, i: nat, n: nat)
    requires HeapInv(h) && i < |h.blocks| && h.blocks[i].free && n <= h.blocks[i].size && n % ALIGN == 0
    ensures var b := Block(h.blocks[i].addr, n, false);
      b !in LiveBlocks(h) && LiveBlocks(Carve(h, i, n)) == LiveBlocks(h) + {b}
  {
    var b := Block(h.blocks[i].addr, n, false);
    if b in LiveBlocks(h) {
      var j :| 0 <= j < |h.blocks| && h.blocks[j] == b;
      DistinctAddrs(h, i, j);
    }
    var h' := Carve(h, i, n);
    assert h.blocks == h.blocks[..i] + [h.blocks[i]] + h.blocks[i + 1..];
    forall c: Block ensures c in LiveBlocks(h') <==> c in LiveBlocks(h) + {b} {
      if !c.free {
        assert c in h.blocks <==> c in h.blocks[..i] || c in h.blocks[i + 1..] || c == h.blocks[i];
        assert c in h'.blocks <==> c in h.blocks[..i] || c == b || c in h.blocks[i + 1..];
      }
    }
  }

  lemma {:induction false} CoalesceLive(bs: seq<Block>, i: nat)
    requires i < |bs| && bs[i].free
    ensures forall b: Block :: !b.free ==> (b in Coalesce(bs, i) <==> b in bs)
    decreases |bs|
  {
    if i + 1 < |bs| && bs[i + 1].free && End(bs[i]) == bs[i + 1].addr {
      var m := bs[i].(size := bs[i].size + HEADER + bs[i + 1].size);
      CoalesceLive(bs[..i] + [m] + bs[i + 2..], i);
      assert bs == bs[..i] + [bs[i], bs[i + 1]] + bs[i + 2..];
    }
  }

  lemma FreshPtr(h: Heap, k: nat)
    requires Tiled(h) && k < |h.blocks| && h.blocks[k].free
    ensures !LivePtr(h, Ptr(h.blocks[k]))
  {
    if LivePtr(h, Ptr(h.blocks[k])) {
      var b :| b in LiveBlocks(h) && Ptr(b) == Ptr(h.blocks[k]);
      var j :| 0 <= j < |h.blocks| && h.blocks[j] == b;
      DistinctAddrs(h, k, j);
    }
  }

  /** Does this request need a fresh page? */
  predicate NeedsPage(h: Heap, size: nat) { FirstFit(h.blocks, AlignedSize(size), 0) == |h.blocks| }

  /** The block a successful `kmalloc` of this size makes live at `ptr`. */
  function NewBlock(ptr: int, size: nat): Block
    requires ptr >= HEADER
  {
    Block(ptr - HEADER, AlignedSize(size), false)
  }

  lemma CarvePtr(h: Heap, k: nat, size: nat)
    requires HeapInv(h) && k < |h.blocks| && h.blocks[k].free && AlignedSize(size) <= h.blocks[k].size
    ensures var h' := Carve(h, k, AlignedSize(size));
      var ptr := Ptr(h.blocks[k]);
      && HeapInv(h') && h'.pages == h.pages
      && ptr != 0 && ptr % 4 == 0 && !LivePtr(h, ptr)
      && LiveBlocks(h') == LiveBlocks(h) + {NewBlock(ptr, size)}
  {
    CarveKeeps(h, k, AlignedSize(size));
    CarveLive(h, k, AlignedSize(size));
    FreshPtr(h, k);
    assert h.blocks[k].addr % 4 == 0;
  }

  lemma GrowLive(p: Pmm, h: Heap)
    ensures LiveBlocks(Grow(p, h).1) == LiveBlocks(h)
  {
  }

  /** `kmalloc` on a sound heap: failure changes nothing; success returns a pointer that was
      not live, to a block of the rounded-up size, and no other live block changes. */
  lemma MallocEffect(p: Pmm, h: Heap, size: nat)
    requires HeapInv(h) && h.pages <= p.used
    ensures var (p', h', ptr) := Malloc(p, h, size);
      && HeapInv(h')
      && (ptr == 0 ==> p' == p && h' == h)
      && (ptr != 0 ==>
            && ptr >= HEADER && ptr % 4 == 0 && size <= AlignedSize(size) && !LivePtr(h, ptr)
            && LiveBlocks(h') == LiveBlocks(h) + {NewBlock(ptr, size)}
            && (!NeedsPage(h, size) ==> p' == p && h'.pages == h.pages)
            && (NeedsPage(h, size) ==>
                  var (q, f) := AllocDirect(p); f != 0 && p' == q && h'.pages == h.pages + {f}))
  {
    var n := AlignedSize(size);
    if n != 0 && n <= PAGE_SIZE - HEADER {
      var k := FirstFit(h.blocks, n, 0);
      if k < |h.blocks| {
        CarvePtr(h, k, size);
      } else {
        GrowKeeps(p, h);
        GrowLive(p, h);
        var (p', h', ok) := Grow(p, h);
        if ok {
          CarvePtr(h', k, size);
        }
      }
    }
  }

  /** `kmalloc` returns an 8-aligned pointer exactly when it need not take a page and the block
      it takes has its header 4 bytes off an 8-byte boundary. */
  lemma MallocAlignment(p: Pmm, h: Heap, size: nat)
    requires HeapInv(h)
    ensures var ptr := Malloc(p, h, size).2;
      ptr != 0 ==>
        (ptr % ALIGN == 0 <==>
         !NeedsPage(h, size) && h.blocks[FirstFit(h.blocks, AlignedSize(size), 0)].addr % ALIGN == 4)
  {
    hide Tiled; hide AllocDirect;
    var k := FirstFit(h.blocks, AlignedSize(size), 0);
    if k < |h.blocks| {
      assert h.blocks[k].addr % 4 == 0;
    }
  }

  /** The first allocation of all is not 8-aligned. */
  lemma FirstUnaligned(p: Pmm, size: nat)
    requires 0 < size <= 4080 && AllocDirect(p).1 != 0
    ensures Malloc(p, EMPTY, size).2 != 0 && Malloc(p, EMPTY, size).2 % ALIGN == 4
  {
    hide AllocDirect;
  }

  lemma MarkLive(h: Heap, k: nat)
    requires Tiled(h) && k < |h.blocks| && !h.blocks[k].free
    ensures LiveBlocks(h.(blocks := h.blocks[k := h.blocks[k].(free := true)])) == LiveBlocks(h) - {h.blocks[k]}
  {
    var b := h.blocks[k];
    var bs := h.blocks[k := b.(free := true)];
    forall c: Block | !c.free ensures c in bs <==> c in h.blocks && c != b {
      if c in h.blocks && c != b {
        var m :| 0 <= m < |h.blocks| && h.blocks[m] == c;
        assert bs[m] == c;
      }
      if c in bs {
        var m :| 0 <= m < |bs| && bs[m] == c;
        assert m != k && h.blocks[m] == c;
        if c == b { DistinctAddrs(h, m, k); }
      }
    }
  }

  /** `kfree` of a live block: exactly that block stops being live. */
  lemma ReleaseEffect(h: Heap, b: Block)
    requires HeapInv(h) && b in LiveBlocks(h)
    ensures var h' := Release(h, Ptr(b));
      HeapInv(h') && LiveBlocks(h') == LiveBlocks(h) - {b} && h'.pages == h.pages
  {
    hide Tiled; hide Shaped; hide Coalesce;
    var k := IndexOf(h.blocks, b.addr, 0);
    var j :| 0 <= j < |h.blocks| && h.blocks[j] == b;
    assert k < |h.blocks|;
    DistinctAddrs(h, j, k);
    var h1 := h.(blocks := h.blocks[k := b.(free := true)]);
    var h2 := h.(blocks := Coalesce(h1.blocks, k));
    assert Release(h, Ptr(b)) == h2;
    MarkKeeps(h, k, true);
    MarkLive(h, k);
    CoalesceKeeps(h1, k);
    CoalesceLive(h1.blocks, k);
    hide Release; hide HeapInv;
    assert LiveBlocks(h2) == LiveBlocks(h1);
  }
}
