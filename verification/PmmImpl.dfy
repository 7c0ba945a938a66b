/** The bitmap allocator of `kernel/mm/pmm.c`, on bytes in memory. */
module PmmImpl {
  import opened PmmSpec
  import opened MemoryMap

  // ---------------------------------------------------------------- bits

  /** `1u << k`. */
  function Mask(k: nat): bv8
    requires k < 8
  {
    match k
    case 0 => 1
    case 1 => 2
    case 2 => 4
    case 3 => 8
    case 4 => 16
    case 5 => 32
    case 6 => 64
    case _ => 128
  }

  /** `bitmap_test`. */
  predicate Bit(bm: seq<bv8>, i: nat)
    requires i / 8 < |bm|
  {
    bm[i / 8] & Mask(i % 8) != 0
  }

  /** `bitmap_set` and `bitmap_clear` on one byte. */
  function WithBit(b: bv8, k: nat): bv8
    requires k < 8
  {
    b | Mask(k)
  }

  function WithoutBit(b: bv8, k: nat): bv8
    requires k < 8
  {
    b & !Mask(k)
  }

  lemma SetBit(b: bv8, k: nat, j: nat)
    requires k < 8 && j < 8
    ensures WithBit(b, k) & Mask(j) != 0 <==> j == k || b & Mask(j) != 0
  {
  }

  lemma ClearBit(b: bv8, k: nat, j: nat)
    requires k < 8 && j < 8
    ensures WithoutBit(b, k) & Mask(j) != 0 <==> j != k && b & Mask(j) != 0
  {
  }

  lemma AllOnes(j: nat)
    requires j < 8
    ensures (0xFF as bv8) & Mask(j) != 0
  {
  }

  lemma SetOne(bm: seq<bv8>, i: nat, j: nat)
    requires i / 8 < |bm| && j / 8 < |bm|
    ensures Bit(bm[i / 8 := WithBit(bm[i / 8], i % 8)], j) <==> j == i || Bit(bm, j)
  {
    if i / 8 == j / 8 { SetBit(bm[i / 8], i % 8, j % 8); }
  }

  lemma ClearOne(bm: seq<bv8>, i: nat, j: nat)
    requires i / 8 < |bm| && j / 8 < |bm|
    ensures Bit(bm[i / 8 := WithoutBit(bm[i / 8], i % 8)], j) <==> j != i && Bit(bm, j)
  {
    if i / 8 == j / 8 { ClearBit(bm[i / 8], i % 8, j % 8); }
  }

  predicate Sized(bm: seq<bv8>, max: nat) { |bm| == (max + 7) / 8 }

  function UsedSet(bm: seq<bv8>, max: nat): set<nat>
    requires Sized(bm, max)
  {
    set i | 0 <= i < max && Bit(bm, i)
  }

  /** The frames with a clear bit. */
  function ClearSet(bm: seq<bv8>, max: nat): set<nat>
    requires Sized(bm, max)
  {
    set i | 0 <= i < max && !Bit(bm, i)
  }

  lemma SetEffect(bm: seq<bv8>, max: nat, i: nat)
    requires Sized(bm, max) && i < max
    ensures var bm' := bm[i / 8 := WithBit(bm[i / 8], i % 8)];
      Sized(bm', max) && UsedSet(bm', max) == UsedSet(bm, max) + {i} && ClearSet(bm', max) == ClearSet(bm, max) - {i}
  {
    forall j | 0 <= j < max ensures Bit(bm[i / 8 := WithBit(bm[i / 8], i % 8)], j) <==> j == i || Bit(bm, j) {
      SetOne(bm, i, j);
    }
  }

  lemma ClearEffect(bm: seq<bv8>, max: nat, i: nat)
    requires Sized(bm, max) && i < max
    ensures var bm' := bm[i / 8 := WithoutBit(bm[i / 8], i % 8)];
      Sized(bm', max) && UsedSet(bm', max) == UsedSet(bm, max) - {i} && ClearSet(bm', max) == ClearSet(bm, max) + {i}
  {
    forall j | 0 <= j < max ensures Bit(bm[i / 8 := WithoutBit(bm[i / 8], i % 8)], j) <==> j != i && Bit(bm, j) {
      ClearOne(bm, i, j);
    }
  }

  // ---------------------------------------------------------------- pages of the memory map

  /** Page `p` lies wholly in a usable region. */
  predicate PageUsable(es: seq<Region>, p: nat)
  {
    exists i :: 0 <= i < |es| && es[i].kind == USABLE && es[i].addr <= 4096 * p && 4096 * p + 4096 <= EndOf(es[i])
  }

  predicate AlignedStarts(es: seq<Region>)
  {
    forall i :: 0 <= i < |es| && es[i].kind == USABLE ==> es[i].addr % 4096 == 0
  }

  /** The pages `clear_usable_pages` counts for one region: as many as its length holds, from
      the page of its first byte. */
  function PagesOf(e: Region, max: nat): set<nat>
  {
    if e.kind != USABLE then {}
    else
      var first := e.addr / 4096;
      Interval(first, if first + e.len / 4096 > max then max else first + e.len / 4096)
  }

  lemma PagesOfIs(e: Region, max: nat)
    ensures e.kind != USABLE || e.addr / 4096 >= max ==> PagesOf(e, max) == {}
    ensures e.kind == USABLE && e.addr / 4096 < max ==>
              var end := e.addr / 4096 + e.len / 4096;
              var r := PagesOf(e, max);
              var stop := if end > max then max else end;
              && r == Interval(e.addr / 4096, stop) && |r| == stop - e.addr / 4096
  {
  }

  ghost function PageSets(es: seq<Region>, max: nat): (ss: seq<set<nat>>)
    ensures |ss| == |es| && forall i :: 0 <= i < |es| ==> ss[i] == PagesOf(es[i], max)
  {
    seq(|es|, i requires 0 <= i < |es| => PagesOf(es[i], max))
  }

  ghost function Union(ss: seq<set<nat>>): set<nat>
  {
    if ss == [] then {} else Union(ss[..|ss| - 1]) + ss[|ss| - 1]
  }

  ghost predicate Apart(ss: seq<set<nat>>)
  {
    forall i, j | 0 <= i < j < |ss| :: ss[i] !! ss[j]
  }

  lemma {:induction false} UnionIs(ss: seq<set<nat>>)
    ensures forall x :: x in Union(ss) <==> exists i :: 0 <= i < |ss| && x in ss[i]
  {
    if ss != [] {
      UnionIs(ss[..|ss| - 1]);
    }
  }

  /** One more set: the sum of sizes stays the size of the union exactly when the new set is
      apart from all those before it. */
  lemma CountStep(ss: seq<set<nat>>, p: set<nat>, n: nat)
    requires |Union(ss)| <= n && (n == |Union(ss)| <==> Apart(ss))
    ensures Union(ss + [p]) == Union(ss) + p
    ensures |Union(ss + [p])| <= n + |p| && (n + |p| == |Union(ss + [p])| <==> Apart(ss + [p]))
  {
    assert (ss + [p])[..|ss|] == ss;
    UnionExact(Union(ss), p);
    UnionIs(ss);
    ApartStep(ss, p);
  }

  lemma ApartStep(ss: seq<set<nat>>, p: set<nat>)
    requires forall x :: x in Union(ss) <==> exists i :: 0 <= i < |ss| && x in ss[i]
    ensures Apart(ss + [p]) <==> Apart(ss) && Union(ss) * p == {}
  {
    var t := ss + [p];
    if Apart(t) {
      forall i, j | 0 <= i < j < |ss| ensures ss[i] !! ss[j] { assert t[i] !! t[j]; }
      forall x | x in Union(ss) ensures x !in p {
        var i :| 0 <= i < |ss| && x in ss[i];
        assert t[i] !! t[|ss|];
      }
    }
    if Apart(ss) && Union(ss) * p == {} {
      forall i, j | 0 <= i < j < |t| ensures t[i] !! t[j] {
        assert j < |ss| ==> ss[i] !! ss[j];
        forall x | x in ss[i] ensures x !in p { assert x in Union(ss) && x !in Union(ss) * p; }
      }
    }
  }

  lemma UnionExact(a: set<nat>, p: set<nat>)
    ensures |a + p| <= |a| + |p| && (|a + p| == |a| + |p| <==> a * p == {})
  {
    assert a + p == a + (p - a) && p == (p - a) + a * p;
    assert |p| == |p - a| + |a * p|;
  }

  ghost function AllPages(es: seq<Region>, max: nat): set<nat> { Union(PageSets(es, max)) }

  ghost predicate PagesDisjoint(es: seq<Region>, max: nat) { Apart(PageSets(es, max)) }

  lemma NoPages(max: nat)
    ensures AllPages([], max) == {} && PagesDisjoint([], max)
  {
  }

  lemma RegionStep(es: seq<Region>, k: nat, max: nat, n: nat)
    requires k < |es|
    requires var c := AllPages(es[..k], max); |c| <= n && (n == |c| <==> PagesDisjoint(es[..k], max))
    ensures var c := AllPages(es[..k + 1], max); var m := n + |PagesOf(es[k], max)|;
      && c == AllPages(es[..k], max) + PagesOf(es[k], max)
      && |c| <= m && (m == |c| <==> PagesDisjoint(es[..k + 1], max))
  {
    hide PagesOf; hide Apart; hide Union;
    assert PageSets(es[..k + 1], max) == PageSets(es[..k], max) + [PagesOf(es[k], max)];
    CountStep(PageSets(es[..k], max), PagesOf(es[k], max), n);
  }

  /** The pages counted for a region all lie wholly inside it exactly when it starts on a page
      boundary or is shorter than a page. */
  lemma RegionPagesExact(e: Region)
    requires e.kind == USABLE
    ensures (forall p :: p in PagesOf(e, EndOf(e) / 4096) ==> e.addr <= 4096 * p && 4096 * p + 4096 <= EndOf(e))
            <==> e.addr % 4096 == 0 || e.len < 4096
  {
    var first := e.addr / 4096;
    if e.addr % 4096 != 0 && e.len >= 4096 {
      assert first in PagesOf(e, EndOf(e) / 4096);
    }
  }

  /** For page-aligned regions below `max` the pages are those wholly inside usable memory. */
  lemma AlignedPages(es: seq<Region>, max: nat, p: nat)
    requires AlignedStarts(es) && LastPage(es, max)
    ensures p in AllPages(es, max) <==> PageUsable(es, p)
  {
    UnionIs(PageSets(es, max));
    assert p in AllPages(es, max) <==> exists i :: 0 <= i < |es| && p in PagesOf(es[i], max);
    forall i | 0 <= i < |es| && es[i].kind == USABLE
      ensures p in PagesOf(es[i], max) <==> es[i].addr <= 4096 * p && 4096 * p + 4096 <= EndOf(es[i]) {
    }
  }

  lemma DisjointPages(es: seq<Region>, max: nat)
    requires AlignedStarts(es) && DisjointUsable(es)
    ensures PagesDisjoint(es, max)
  {
    forall i, j | 0 <= i < j < |es| ensures PagesOf(es[i], max) !! PagesOf(es[j], max) {
      if es[i].kind == USABLE && es[j].kind == USABLE {
        assert EndOf(es[i]) <= es[j].addr || EndOf(es[j]) <= es[i].addr;
      }
    }
  }

  /** Page `p` shares a byte with the range. */
  predicate PageTouches(r: Range, p: nat) { r.start / 4096 <= p < (r.end + 4095) / 4096 }

  // ---------------------------------------------------------------- the allocator

  class PageAllocator {
    var bitmap: array<bv8>
    var maxPage: nat
    var totalPages: nat
    var freePages: nat
    ghost var doubleFree: bool

    /** Memory ends at 4 GiB, the counter is the number of clear bits, and page 0 is never
        free. */
    ghost predicate Valid()
      reads this, bitmap
    {
      && Sized(bitmap[..], maxPage) && maxPage <= 0x10_0000
      && freePages == |ClearSet(bitmap[..], maxPage)|
      && 0 !in ClearSet(bitmap[..], maxPage)
    }

    ghost function State(): Pmm
      requires Valid()
      reads this, bitmap
    {
      Pmm(maxPage, UsedSet(bitmap[..], maxPage), doubleFree)
    }

    ghost function UsedPages(): set<nat>
      requires Sized(bitmap[..], maxPage)
      reads this, bitmap
    {
      UsedSet(bitmap[..], maxPage)
    }

    ghost function ClearPages(): set<nat>
      requires Sized(bitmap[..], maxPage)
      reads this, bitmap
    {
      ClearSet(bitmap[..], maxPage)
    }

    method BitmapSet(page: nat)
      requires Sized(bitmap[..], maxPage) && page < maxPage
      modifies bitmap
      ensures Sized(bitmap[..], maxPage)
      ensures UsedPages() == old(UsedPages()) + {page} && ClearPages() == old(ClearPages()) - {page}
    {
      hide UsedSet; hide ClearSet; hide Bit; hide WithBit; hide WithoutBit;
      SetEffect(bitmap[..], maxPage, page);
      ghost var bm := bitmap[..];
      bitmap[page / 8] := WithBit(bitmap[page / 8], page % 8);
      assert bitmap[..] == bm[page / 8 := WithBit(bm[page / 8], page % 8)];
    }

    method BitmapClear(page: nat)
      requires Sized(bitmap[..], maxPage) && page < maxPage
      modifies bitmap
      ensures Sized(bitmap[..], maxPage)
      ensures UsedPages() == old(UsedPages()) - {page} && ClearPages() == old(ClearPages()) + {page}
    {
      hide UsedSet; hide ClearSet; hide Bit; hide WithBit; hide WithoutBit;
      ClearEffect(bitmap[..], maxPage, page);
      ghost var bm := bitmap[..];
      bitmap[page / 8] := WithoutBit(bitmap[page / 8], page % 8);
      assert bitmap[..] == bm[page / 8 := WithoutBit(bm[page / 8], page % 8)];
    }

    method BitmapTest(page: nat) returns (b: bool)
      requires Sized(bitmap[..], maxPage) && page < maxPage
      ensures b <==> page in UsedPages()
      ensures b <==> page !in ClearPages()
    {
      b := bitmap[page / 8] & Mask(page % 8) != 0;
    }

    /** `pmm_alloc_page`: an address, 0 on exhaustion. */
    method AllocPage() returns (addr: nat)
      requires Valid()
      modifies this`freePages, bitmap
      ensures Valid() && (State(), addr / 4096) == Alloc(old(State()))
      ensures addr % 4096 == 0 && addr < 0x1_0000_0000
    {
      hide UsedSet; hide ClearSet;
      var i := 1;
      while i < maxPage
        invariant 1 <= i && FirstFree(State(), 1) == FirstFree(State(), i)
        modifies {}
      {
        var used := BitmapTest(i);
        if !used { break; }
        i := i + 1;
      }
      if i >= maxPage { return 0; }
      BitmapSet(i);
      if freePages > 0 { freePages := freePages - 1; }
      return i * 4096;
    }

    /** `pmm_free_page`. */
    method FreePage(addr: nat)
      requires Valid()
      modifies this`freePages, this`doubleFree, bitmap
      ensures Valid() && State() == Free(old(State()), addr / 4096)
    {
      hide UsedSet; hide ClearSet;
      var page := addr / 4096;
      if page != 0 && page < maxPage {
        var used := BitmapTest(page);
        if used {
          BitmapClear(page);
          freePages := freePages + 1;
        } else {
          doubleFree := true;
        }
      }
    }

    // ------------------------------------------------------------ boot

    /** The counter says `more` pages than there are clear bits. */
    ghost predicate Counted(more: nat)
      reads this, bitmap
    {
      Sized(bitmap[..], maxPage) && freePages == |ClearSet(bitmap[..], maxPage)| + more
    }

    /** `reserve_page`. */
    method ReservePage(page: nat, ghost more: nat)
      requires Counted(more)
      modifies this`freePages, bitmap
      ensures Counted(more) && ClearPages() == old(ClearPages()) - {page}
    {
      hide UsedSet; hide ClearSet;
      InRange();
      if page >= maxPage { return; }
      var used := BitmapTest(page);
      if !used {
        BitmapSet(page);
        if freePages > 0 { freePages := freePages - 1; }
      }
    }

    lemma InRange()
      requires Sized(bitmap[..], maxPage)
      ensures forall p :: p in ClearPages() ==> p < maxPage
    {
    }

    /** `reserve_segment`: every page that shares a byte with the range. */
    method ReserveSegment(r: Range, ghost more: nat)
      requires Counted(more)
      modifies this`freePages, bitmap
      ensures Counted(more)
      ensures forall p :: p in ClearPages() <==> p in old(ClearPages()) && !PageTouches(r, p)
    {
      hide UsedSet; hide ClearSet;
      var page := r.start / 4096;
      var end := (r.end + 4095) / 4096;
      while page < end
        invariant r.start / 4096 <= page && Counted(more)
        invariant forall p :: p in ClearPages() <==> p in old(ClearPages()) && !(r.start / 4096 <= p < page && p < end)
      {
        ReservePage(page, more);
        page := page + 1;
      }
    }

    /** `clear_usable_pages`. The count is that of the cleared pages exactly when no page is
        counted for two regions. */
    method ClearUsablePages(es: seq<Region>) returns (n: nat)
      requires Sized(bitmap[..], maxPage) && ClearPages() == {}
      modifies bitmap
      ensures Sized(bitmap[..], maxPage) && ClearPages() == AllPages(es, maxPage)
      ensures |ClearPages()| <= n && (n == |ClearPages()| <==> PagesDisjoint(es, maxPage))
    {
      hide *;
      NoPages(maxPage);
      n := 0;
      for k := 0 to |es|
        invariant Sized(bitmap[..], maxPage) && ClearPages() == AllPages(es[..k], maxPage)
        invariant |ClearPages()| <= n && (n == |ClearPages()| <==> PagesDisjoint(es[..k], maxPage))
      {
        RegionStep(es, k, maxPage, n);
        PagesOfIs(es[k], maxPage);
        if es[k].kind == USABLE {
          var start := es[k].addr / 4096;
          var end := start + es[k].len / 4096;
          if start < maxPage {
            if end > maxPage { end := maxPage; }
            ClearRun(start, end);
            n := n + (end - start);
          }
        }
      }
      assert es[..|es|] == es;
    }

    /** The inner loop of `clear_usable_pages`. */
    method ClearRun(start: nat, end: nat)
      requires Sized(bitmap[..], maxPage) && start <= end <= maxPage
      modifies bitmap
      ensures Sized(bitmap[..], maxPage) && ClearPages() == old(ClearPages()) + Interval(start, end)
    {
      hide *;
      ghost var was := ClearPages();
      RunStart(was, start);
      for i := start to end
        invariant Sized(bitmap[..], maxPage) && RunCleared(was, ClearPages(), start, i)
      {
        ghost var clear := ClearPages();
        BitmapClear(i);
        RunStep(was, clear, start, i);
      }
      RunEnd(was, ClearPages(), start, end);
    }

    method FillBitmap()
      requires Sized(bitmap[..], maxPage)
      modifies bitmap
      ensures Sized(bitmap[..], maxPage) && ClearPages() == {}
    {
      for i := 0 to bitmap.Length
        invariant forall k :: 0 <= k < i ==> bitmap[k] == 0xFF
      {
        bitmap[i] := 0xFF;
      }
      forall p | 0 <= p < maxPage ensures Bit(bitmap[..], p) { AllOnes(p % 8); }
    }

    /** `pmm_init`, for any memory map on which no 32-bit sum wraps. `base` is where the bitmap
        was put, 0 for a panic: no place for it, a kernel that fails the location check, or a
        bitmap outside the direct map. Otherwise a page is free exactly when it is one of those
        counted for a usable region and holds no byte of bitmap or kernel, and is not page 0;
        for page-aligned regions that means it lies wholly in usable memory. The counter is
        right exactly when no page is counted for two regions. */
    method Init(es: seq<Region>, kernel: Range, info: Range, list: Range) returns (base: nat)
      requires kernel.start <= kernel.end
      requires forall m: nat :: LastPage(es, m) ==> NoWrap(es, (m + 7) / 8, [kernel, info, list])
      modifies this
      ensures LastPage(es, maxPage)
      ensures base == 0 <==>
        var bytes := (maxPage + 7) / 8;
        || NoPlace(es, bytes, [kernel, info, list])
        || |Missing(es, kernel)| > Excess(es, kernel)
        || OutOfReach(es, bytes, [kernel, info, list])
      ensures base != 0 ==> Sized(bitmap[..], maxPage) && fresh(bitmap) && !doubleFree
      ensures base != 0 ==> Best(es, (maxPage + 7) / 8, [kernel, info, list], base)
      ensures base != 0 ==>
        var own := Range(base, base + (maxPage + 7) / 8);
        && (forall p :: p in ClearPages() <==>
              p in AllPages(es, maxPage) && p != 0 && !PageTouches(kernel, p) && !PageTouches(own, p))
        && (AlignedStarts(es) ==> forall p ::
              p in ClearPages() <==> PageUsable(es, p) && p != 0 && !PageTouches(kernel, p) && !PageTouches(own, p))
      ensures base != 0 ==> (Valid() <==> PagesDisjoint(es, maxPage))
      ensures base != 0 && AlignedStarts(es) && DisjointUsable(es) ==> Valid()
    {
      hide UsedSet; hide ClearSet; hide AlignedStarts; hide DisjointUsable; hide NoWrap; hide TotalOverlap; hide Fits;
      hide PageTouches; hide PageUsable; hide AllPages; hide PagesDisjoint; hide Missing; hide Excess; hide BestFit;
      maxPage := FindMaxPage(es);
      assert LastPage(es, maxPage);
      hide LastPage;
      var bytes := (maxPage + 7) / 8;
      var avoid := [kernel, info, list];
      base := FindSegment(es, bytes, avoid);
      if base == 0 { return; }
      BestUnique(es, bytes, avoid, base);
      KernelCheckExact(es, kernel);
      var ok := CheckKernelLocation(es, kernel);
      if !ok || base >= 0x100_0000 { return 0; }
      EndsBelow(es, maxPage, bytes, avoid);
      ClearBut(es, Range(base, base + bytes), kernel);
      if AlignedStarts(es) && DisjointUsable(es) { DisjointPages(es, maxPage); }
    }

    /** The second half of `pmm_init`: fill the bitmap, free usable pages, reserve. */
    method ClearBut(es: seq<Region>, own: Range, kernel: Range)
      requires LastPage(es, maxPage) && maxPage <= 0x10_0000
      modifies this
      ensures maxPage == old(maxPage) && Sized(bitmap[..], maxPage) && fresh(bitmap) && !doubleFree
      ensures Valid() <==> PagesDisjoint(es, maxPage)
      ensures forall p :: p in ClearPages() <==>
        p in AllPages(es, maxPage) && p != 0 && !PageTouches(kernel, p) && !PageTouches(own, p)
      ensures AlignedStarts(es) ==> forall p :: p in ClearPages() <==>
        PageUsable(es, p) && p != 0 && !PageTouches(kernel, p) && !PageTouches(own, p)
    {
      hide UsedSet; hide ClearSet; hide AlignedStarts; hide DisjointUsable; hide PageUsable; hide PageTouches;
      hide AllPages; hide PagesDisjoint; hide LastPage;
      doubleFree := false;
      bitmap := new bv8[(maxPage + 7) / 8];
      FillBitmap();
      var usable := ClearUsablePages(es);
      totalPages := usable;
      freePages := usable;
      ghost var more := usable - |ClearPages()|;
      ReserveSegment(own, more);
      ReserveSegment(kernel, more);
      ReservePage(0, more);
      if AlignedStarts(es) {
        forall p ensures p in AllPages(es, maxPage) <==> PageUsable(es, p) { AlignedPages(es, maxPage, p); }
      }
    }
  }

  ghost predicate NoPlace(es: seq<Region>, bytes: nat, avoid: seq<Range>)
  {
    forall i, s: nat :: 0 <= i < |es| ==> !Fits(es[i], bytes, avoid, s)
  }

  /** The place found is beyond the direct map. */
  ghost predicate OutOfReach(es: seq<Region>, bytes: nat, avoid: seq<Range>)
  {
    exists i: nat, s: nat :: s >= 0x100_0000 && BestFit(es, bytes, avoid, i, s)
  }

  /** One past the last page of the highest usable region. */
  ghost predicate LastPage(es: seq<Region>, max: nat)
  {
    && (forall i :: 0 <= i < |es| && es[i].kind == USABLE ==> EndOf(es[i]) / 4096 <= max)
    && (max != 0 ==> exists i :: 0 <= i < |es| && es[i].kind == USABLE && EndOf(es[i]) / 4096 == max)
  }

  ghost predicate Best(es: seq<Region>, bytes: nat, avoid: seq<Range>, start: nat)
  {
    exists i: nat :: BestFit(es, bytes, avoid, i, start)
  }

  lemma EndsBelow(es: seq<Region>, max: nat, bytes: nat, avoid: seq<Range>)
    requires LastPage(es, max) && NoWrap(es, bytes, avoid)
    ensures max <= 0x10_0000
  {
  }

  /** Pages `start .. i` have been added to the clear ones. */
  ghost predicate RunCleared(was: set<nat>, now: set<nat>, start: nat, i: nat) { now == was + Interval(start, i) }

  lemma RunStart(was: set<nat>, start: nat)
    ensures RunCleared(was, was, start, start)
  {
  }

  lemma RunStep(was: set<nat>, clear: set<nat>, start: nat, i: nat)
    requires start <= i && RunCleared(was, clear, start, i)
    ensures RunCleared(was, clear + {i}, start, i + 1)
  {
  }

  lemma RunEnd(was: set<nat>, now: set<nat>, start: nat, end: nat)
    requires RunCleared(was, now, start, end)
    ensures now == was + Interval(start, end)
  {
  }

  /** An input: usable memory from 1 to 2 MiB listed twice, the kernel in its first page. */
  function Twice(): seq<Region> { var e := Region(0x10_0000, 0x10_0000, USABLE); [e, e] }
  function Kernel(): Range { Range(0x10_0000, 0x10_1000) }
  function Obstacles(): seq<Range> { [Kernel(), Range(0x9000, 0x9074), Range(0x9100, 0x9130)] }

  /** That map passes every check of `pmm_init`, and its pages are counted twice, so the counter
      comes out wrong. */
  lemma CountedTwice()
    ensures LastPage(Twice(), 512) && NoWrap(Twice(), 64, Obstacles())
    ensures BestFit(Twice(), 64, Obstacles(), 0, 0x10_1000) && Missing(Twice(), Kernel()) == {}
    ensures !PagesDisjoint(Twice(), 512)
  {
    TwiceEnds();
    TwicePlaced();
    TwiceCovered();
    hide *;
    TwiceCounted();
  }

  lemma TwiceEnds()
    ensures LastPage(Twice(), 512) && NoWrap(Twice(), 64, Obstacles())
  {
    assert EndOf(Twice()[0]) == 0x20_0000;
  }

  lemma TwicePlaced()
    ensures BestFit(Twice(), 64, Obstacles(), 0, 0x10_1000)
  {
    var e, avoid := Twice()[0], Obstacles();
    assert Fits(e, 64, avoid, 0x10_1000);
    forall s: nat | s < 0x10_1000 ensures !Fits(e, 64, avoid, s) {
      if s % 4096 == 0 && e.addr <= s {
        assert Hits(s, 64, avoid[0]);
      }
    }
  }

  lemma TwiceCovered()
    ensures Missing(Twice(), Kernel()) == {}
  {
    forall x | x in Interval(Kernel().start, Kernel().end) ensures x in Covered(Twice(), Kernel()) {
      assert Twice()[0].addr <= x < EndOf(Twice()[0]);
    }
  }

  lemma TwiceCounted()
    ensures !PagesDisjoint(Twice(), 512)
  {
    hide Interval;
    var ss := PageSets(Twice(), 512);
    assert ss[0] == ss[1] == Interval(256, 512);
    assert 256 in ss[0];
  }

  /** The segment found is the only best one. */
  lemma BestUnique(es: seq<Region>, bytes: nat, avoid: seq<Range>, base: nat)
    requires Best(es, bytes, avoid, base)
    ensures forall i: nat, s: nat :: BestFit(es, bytes, avoid, i, s) ==> s == base
  {
    var k: nat :| BestFit(es, bytes, avoid, k, base);
    forall i: nat, s: nat | BestFit(es, bytes, avoid, i, s) ensures s == base {
    }
  }
}
