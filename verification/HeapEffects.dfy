/** What one call of the heap does, in full: when `kmalloc` succeeds and which block it takes,
    and what `kfree` merges. */
module HeapEffects {
  import opened Common
  import opened PmmSpec
  import opened HeapSpec

  // ---------------------------------------------------------------- kmalloc

  /** Some free block can hold `n` bytes. */
  predicate HasRoom(bs: seq<Block>, n: nat)
  {
    exists i :: 0 <= i < |bs| && bs[i].free && bs[i].size >= n
  }

  lemma RoomIsFit(bs: seq<Block>, n: nat)
    ensures HasRoom(bs, n) <==> FirstFit(bs, n, 0) < |bs|
  {
    if FirstFit(bs, n, 0) < |bs| {
      assert bs[FirstFit(bs, n, 0)].free;
    }
  }

  /** A reachable frame can be had exactly when one is free; it is the lowest one. */
  lemma DirectCan(p: Pmm)
    ensures AllocDirect(p).1 != 0 <==> FreeDirect(p) != {}
    ensures AllocDirect(p).1 != 0 ==>
              && AllocDirect(p).1 in FreeDirect(p) && AllocDirect(p).0 == p.(used := p.used + {AllocDirect(p).1})
              && |FreeDirect(AllocDirect(p).0)| == |FreeDirect(p)| - 1
  {
    AllocCounts(p);
    AllocDirectEffect(p);
    if AllocDirect(p).1 != 0 { TakeOne(p, AllocDirect(p).1); }
  }

  /** For every size: `kmalloc` returns a pointer if and only if the rounded size is one it serves
      and a free block holds it or a reachable frame is free. */
  lemma MallocSucceeds(p: Pmm, h: Heap, size: nat)
    ensures Malloc(p, h, size).2 != 0 <==>
            0 < AlignedSize(size) <= 4084 && (HasRoom(h.blocks, AlignedSize(size)) || FreeDirect(p) != {})
  {
    RoomIsFit(h.blocks, AlignedSize(size));
    DirectCan(p);
    hide AllocDirect; hide FreeDirect; hide HasRoom; hide AlignedSize; hide Carve;
  }

  /** What one block becomes when `n` bytes of it are taken: those bytes, and the rest as a free
      block behind them when a header and 8 bytes of it are left. */
  function Taken(b: Block, n: nat): seq<Block>
    requires n <= b.size
  {
    [Block(b.addr, n, false)]
    + if b.size - n >= 20 then [Block(b.addr + 12 + n, b.size - n - 12, true)] else []
  }

  /** The pointer comes from the first block of the list that fits, or from a fresh page put at the
      end of the list when none does; no other block moves or changes. */
  lemma MallocPlace(p: Pmm, h: Heap, size: nat)
    requires Malloc(p, h, size).2 != 0
    ensures var (p', h', ptr) := Malloc(p, h, size);
      var n := AlignedSize(size);
      if HasRoom(h.blocks, n) then
        var k := FirstFit(h.blocks, n, 0);
        k < |h.blocks| && ptr == h.blocks[k].addr + 12
        && h'.blocks == h.blocks[..k] + Taken(h.blocks[k], n) + h.blocks[k + 1..]
        && p' == p && h'.pages == h.pages
      else
        var f := AllocDirect(p).1;
        f != 0 && n <= 4084 && ptr == 0xC000_0000 + 4096 * f + 12
        && h'.blocks == h.blocks + Taken(Block(0xC000_0000 + 4096 * f, 4084, true), n)
        && p' == p.(used := p.used + {f}) && h'.pages == h.pages + {f}
  {
    var n := AlignedSize(size);
    RoomIsFit(h.blocks, n);
    DirectCan(p);
    hide AllocDirect; hide FreeDirect; hide HasRoom; hide AlignedSize;
    var k := FirstFit(h.blocks, n, 0);
    if k < |h.blocks| {
      CarveIs(h, k, n);
    } else {
      var (p1, h1, ok) := Grow(p, h);
      CarveIs(h1, k, n);
      assert h1.blocks[..k] == h.blocks && h1.blocks[k + 1..] == [];
    }
  }

  lemma CarveIs(h: Heap, k: nat, n: nat)
    requires k < |h.blocks| && n <= h.blocks[k].size
    ensures Carve(h, k, n).blocks == h.blocks[..k] + Taken(h.blocks[k], n) + h.blocks[k + 1..]
    ensures Carve(h, k, n).pages == h.pages
  {
  }

  // ---------------------------------------------------------------- kfree

  /** Blocks `i .. i + m` of the list follow each other in memory, all but the first free. */
  predicate Chain(bs: seq<Block>, i: nat, m: nat)
  {
    && 1 <= m && i + m <= |bs|
    && forall j :: i < j < i + m ==> bs[j].free && End(bs[j - 1]) == bs[j].addr
  }

  /** The next block does not continue the chain. */
  predicate Stops(bs: seq<Block>, i: nat, m: nat)
    requires 1 <= m && i + m <= |bs|
  {
    i + m == |bs| || !bs[i + m].free || End(bs[i + m - 1]) != bs[i + m].addr
  }

  /** The block and the longest chain behind it, as one. */
  lemma {:induction false} CoalesceIs(bs: seq<Block>, i: nat) returns (m: nat)
    requires i < |bs|
    ensures Chain(bs, i, m) && Stops(bs, i, m) && End(bs[i + m - 1]) >= bs[i].addr + 12
    ensures Coalesce(bs, i) == bs[..i] + [bs[i].(size := End(bs[i + m - 1]) - bs[i].addr - 12)] + bs[i + m..]
    decreases |bs|
  {
    if i + 1 < |bs| && bs[i + 1].free && End(bs[i]) == bs[i + 1].addr {
      var c := bs[i].(size := bs[i].size + HEADER + bs[i + 1].size);
      var bs2 := bs[..i] + [c] + bs[i + 2..];
      assert Coalesce(bs, i) == Coalesce(bs2, i);
      hide Coalesce;
      var m2 := CoalesceIs(bs2, i);
      m := m2 + 1;
      ChainBack(bs, bs2, i, m2);
      hide Chain; hide Stops;
      assert bs[i].(size := End(bs[i + m2]) - bs[i].addr - 12) == bs2[i].(size := End(bs2[i + m2 - 1]) - bs2[i].addr - 12);
    } else {
      m := 1;
      AloneIs(bs, i);
    }
  }

  lemma AloneIs(bs: seq<Block>, i: nat)
    requires i < |bs|
    ensures bs == bs[..i] + [bs[i].(size := End(bs[i]) - bs[i].addr - 12)] + bs[i + 1..]
  {
    assert bs == bs[..i] + [bs[i]] + bs[i + 1..];
  }

  lemma ChainBack(bs: seq<Block>, bs2: seq<Block>, i: nat, m2: nat)
    requires i + 1 < |bs| && bs[i + 1].free && End(bs[i]) == bs[i + 1].addr
    requires bs2 == bs[..i] + [bs[i].(size := bs[i].size + HEADER + bs[i + 1].size)] + bs[i + 2..]
    requires Chain(bs2, i, m2) && Stops(bs2, i, m2)
    ensures Chain(bs, i, m2 + 1) && Stops(bs, i, m2 + 1) && End(bs[i + m2]) == End(bs2[i + m2 - 1])
    ensures bs2[..i] == bs[..i] && bs2[i].addr == bs[i].addr && bs2[i].free == bs[i].free && bs2[i + m2..] == bs[i + m2 + 1..]
  {
    assert forall j :: i < j < |bs2| ==> bs2[j] == bs[j + 1];
    assert End(bs2[i]) == End(bs[i + 1]);
    forall j | i < j < i + m2 + 1 ensures bs[j].free && End(bs[j - 1]) == bs[j].addr {
      if j > i + 1 {
        assert bs2[j - 1] == bs[j] && End(bs2[j - 2]) == End(bs[j - 1]);
      }
    }
  }

  /** `kfree` in full: the block becomes free and takes in every block behind it that follows in
      memory and is free, up to the first that does not; nothing else of the list changes, and
      behind the block now comes none it could still take in. */
  lemma ReleaseMerges(h: Heap, x: Block) returns (k: nat, m: nat)
    requires HeapInv(h) && x in LiveBlocks(h)
    ensures k < |h.blocks| && h.blocks[k] == x && Chain(h.blocks, k, m) && Stops(h.blocks, k, m)
    ensures var h' := Release(h, Ptr(x));
      var size := End(h.blocks[k + m - 1]) - x.addr - 12;
      && size >= 0 && h' == h.(blocks := h.blocks[..k] + [Block(x.addr, size, true)] + h.blocks[k + m..])
      && h'.blocks[k] == Block(x.addr, size, true)
      && (k + 1 < |h'.blocks| ==> !h'.blocks[k + 1].free || End(h'.blocks[k]) != h'.blocks[k + 1].addr)
  {
    hide Tiled; hide HeapSpec.Shaped; hide Coalesce;
    k := IndexOf(h.blocks, x.addr, 0);
    var j :| 0 <= j < |h.blocks| && h.blocks[j] == x;
    DistinctAddrs(h, j, k);
    var bs := h.blocks[k := x.(free := true)];
    m := CoalesceIs(bs, k);
    SameChain(h.blocks, bs, k, m);
  }

  lemma SameChain(bs: seq<Block>, bs': seq<Block>, k: nat, m: nat)
    requires k < |bs| && bs' == bs[k := bs[k].(free := true)] && Chain(bs', k, m) && Stops(bs', k, m)
    ensures Chain(bs, k, m) && Stops(bs, k, m) && End(bs[k + m - 1]) == End(bs'[k + m - 1])
    ensures bs'[..k] == bs[..k] && bs'[k + m..] == bs[k + m..]
  {
    assert forall j :: 0 <= j < |bs| ==> End(bs'[j]) == End(bs[j]) && bs'[j].addr == bs[j].addr;
  }

  // ---------------------------------------------------------------- there and back

  /** Two requests served from one free page, freed in reverse order. */
  function ThereAndBack(p: Pmm, h: Heap, s1: nat, s2: nat): Heap
  {
    var (p1, h1, a) := Malloc(p, h, s1);
    var (p2, h2, b) := Malloc(p1, h1, s2);
    Release(Release(h2, b), a)
  }

  lemma ReleaseLast(h: Heap, i: nat)
    requires i + 1 == |h.blocks| && !h.blocks[i].free && forall j :: 0 <= j < i ==> h.blocks[j].addr != h.blocks[i].addr
    ensures Release(h, h.blocks[i].addr + 12).blocks == h.blocks[i := h.blocks[i].(free := true)]
  {
  }

  lemma ReleaseBefore(h: Heap, i: nat)
    requires i + 2 == |h.blocks| && !h.blocks[i].free && h.blocks[i + 1].free && End(h.blocks[i]) == h.blocks[i + 1].addr
    requires forall j :: 0 <= j < i ==> h.blocks[j].addr != h.blocks[i].addr
    ensures Release(h, h.blocks[i].addr + 12).blocks ==
            h.blocks[..i] + [Block(h.blocks[i].addr, h.blocks[i].size + 12 + h.blocks[i + 1].size, true)]
  {
    var bs := h.blocks[i := h.blocks[i].(free := true)];
    assert IndexOf(h.blocks, h.blocks[i].addr, 0) == i;
    var bs2 := bs[..i] + [bs[i].(size := bs[i].size + 12 + bs[i + 1].size)] + bs[i + 2..];
    assert Coalesce(bs, i) == Coalesce(bs2, i) && Coalesce(bs2, i) == bs2;
  }

  /** From one free page block and back: the list is the same again if and only if the second
      request leaves nothing of the page or enough of it for a block of its own. */
  lemma TwoThereAndBack(p: Pmm, h: Heap, f: nat, s1: nat, s2: nat)
    requires h.blocks == [PageBlock(f)]
    requires var n1, n2 := AlignedSize(s1), AlignedSize(s2); n1 > 0 && n2 > 0 && n1 + n2 <= 4072
    ensures ThereAndBack(p, h, s1, s2).blocks == h.blocks <==>
            var left := 4072 - AlignedSize(s1) - AlignedSize(s2); left == 0 || left >= 20
  {
    var n1, n2 := AlignedSize(s1), AlignedSize(s2);
    var a := PageBlock(f).addr;
    FirstServed(p, h, f, s1);
    var (p1, h1, p1tr) := Malloc(p, h, s1);
    SecondServed(p1, h1, a, n1, s2);
    var (p2, h2, p2tr) := Malloc(p1, h1, s2);
    hide Malloc; hide AlignedSize;
    hide Release;
    if 4072 - n1 - n2 >= 20 {
      BackFromThree(h2, a, n1, n2);
    } else {
      BackFromTwo(h2, a, n1, n2);
    }
  }

  lemma BackFromTwo(h: Heap, a: nat, n1: nat, n2: nat)
    requires h.blocks == [Block(a, n1, false), Block(a + 12 + n1, n2, false)]
    ensures Release(Release(h, a + 24 + n1), a + 12).blocks == [Block(a, n1 + 12 + n2, true)]
  {
    ReleaseLast(h, 1);
    var h3 := Release(h, a + 24 + n1);
    assert h3.blocks == [Block(a, n1, false), Block(a + 12 + n1, n2, true)];
    ReleaseBefore(h3, 0);
  }

  lemma FirstServed(p: Pmm, h: Heap, f: nat, s1: nat)
    requires h.blocks == [PageBlock(f)] && 0 < AlignedSize(s1) <= 4064
    ensures var n1, a := AlignedSize(s1), PageBlock(f).addr;
      var (p1, h1, ptr) := Malloc(p, h, s1);
      ptr == a + 12 && h1.blocks == [Block(a, n1, false), Block(a + 12 + n1, 4072 - n1, true)]
  {
    assert FirstFit(h.blocks, AlignedSize(s1), 0) == 0;
  }

  lemma SecondServed(p: Pmm, h: Heap, a: nat, n1: nat, s2: nat)
    requires 0 < n1 && 0 < AlignedSize(s2) && n1 + AlignedSize(s2) <= 4072
    requires h.blocks == [Block(a, n1, false), Block(a + 12 + n1, 4072 - n1, true)]
    ensures var n2 := AlignedSize(s2);
      var (p2, h2, ptr) := Malloc(p, h, s2);
      && ptr == a + 24 + n1
      && h2.blocks == [Block(a, n1, false)] + Taken(Block(a + 12 + n1, 4072 - n1, true), n2)
  {
    var n2 := AlignedSize(s2);
    assert FirstFit(h.blocks, n2, 0) == FirstFit(h.blocks, n2, 1) == 1;
    CarveIs(h, 1, n2);
  }

  lemma BackFromThree(h: Heap, a: nat, n1: nat, n2: nat)
    requires n1 + n2 <= 4052
    requires h.blocks == [Block(a, n1, false), Block(a + 12 + n1, n2, false), Block(a + 24 + n1 + n2, 4060 - n1 - n2, true)]
    ensures Release(Release(h, a + 24 + n1), a + 12).blocks == [Block(a, 4084, true)]
  {
    ReleaseBefore(h, 1);
    var h3 := Release(h, a + 24 + n1);
    assert h3.blocks == [Block(a, n1, false), Block(a + 12 + n1, 4072 - n1, true)];
    ReleaseBefore(h3, 0);
  }
}
