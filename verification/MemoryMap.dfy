/**
 * Reading the multiboot memory map (section 3.3 of the Multiboot Specification): where usable
 * RAM ends, whether it holds the kernel, and where the page bitmap can go.
 */
module MemoryMap {

  const U32_SIZE: nat := 0x1_0000_0000
  const USABLE: nat := 1

  datatype Region = Region(addr: nat, len: nat, kind: nat)
  datatype Range = Range(start: nat, end: nat)

  function EndOf(e: Region): nat { e.addr + e.len }

  // ---------------------------------------------------------------- does RAM hold the kernel?

  /** `overlap_bytes`. */
  function Overlap(e: Region, r: Range): nat
  {
    if e.kind != USABLE then 0
    else
      var lo := if e.addr > r.start then e.addr else r.start;
      var hi := if EndOf(e) < r.end then EndOf(e) else r.end;
      if lo >= hi then 0 else hi - lo
  }

  function TotalOverlap(es: seq<Region>, r: Range): nat
  {
    if es == [] then 0 else TotalOverlap(es[..|es| - 1], r) + Overlap(es[|es| - 1], r)
  }

  /** The summing loop of `check_kernel_location`; the kernel panics on false. */
  method CheckKernelLocation(es: seq<Region>, r: Range) returns (ok: bool)
    requires r.start <= r.end
    ensures ok <==> TotalOverlap(es, r) >= r.end - r.start
  {
    var total := 0;
    for i := 0 to |es|
      invariant total == TotalOverlap(es[..i], r)
    {
      assert es[..i + 1][..i] == es[..i];
      total := total + Overlap(es[i], r);
    }
    assert es[..|es|] == es;
    ok := !(total < r.end - r.start);
  }

  /** Byte `x` lies in a usable region. */
  predicate Usable(es: seq<Region>, x: nat)
  {
    exists i :: 0 <= i < |es| && es[i].kind == USABLE && es[i].addr <= x < EndOf(es[i])
  }

  predicate DisjointUsable(es: seq<Region>)
  {
    forall i, j | 0 <= i < j < |es| && es[i].kind == USABLE && es[j].kind == USABLE ::
      EndOf(es[i]) <= es[j].addr || EndOf(es[j]) <= es[i].addr
  }

  function Interval(lo: nat, hi: nat): (r: set<nat>)
    ensures forall x :: x in r <==> lo <= x < hi
    ensures |r| == if lo < hi then hi - lo else 0
    decreases hi
  {
    if lo < hi then Interval(lo, hi - 1) + {hi - 1} else {}
  }

  /** Bytes of the range that lie in usable regions. */
  ghost function Covered(es: seq<Region>, r: Range): set<nat>
  {
    set x | r.start <= x < r.end && Usable(es, x)
  }

  function Piece(e: Region, r: Range): set<nat>
  {
    if e.kind != USABLE then {}
    else Interval(if e.addr > r.start then e.addr else r.start, if EndOf(e) < r.end then EndOf(e) else r.end)
  }

  lemma PieceSize(e: Region, r: Range)
    ensures |Piece(e, r)| == Overlap(e, r)
    ensures forall x :: x in Piece(e, r) <==> r.start <= x < r.end && e.kind == USABLE && e.addr <= x < EndOf(e)
  {
  }

  lemma CoveredStep(es: seq<Region>, r: Range)
    requires es != []
    ensures Covered(es, r) == Covered(es[..|es| - 1], r) + Piece(es[|es| - 1], r)
  {
    var n := |es| - 1;
    PieceSize(es[n], r);
    forall x | r.start <= x < r.end ensures Usable(es, x) <==> Usable(es[..n], x) || x in Piece(es[n], r) {
      if Usable(es[..n], x) {
        var i :| 0 <= i < n && es[..n][i].kind == USABLE && es[..n][i].addr <= x < EndOf(es[..n][i]);
        assert es[i] == es[..n][i];
      }
      if Usable(es, x) {
        var i :| 0 <= i < |es| && es[i].kind == USABLE && es[i].addr <= x < EndOf(es[i]);
        assert i < n ==> es[..n][i] == es[i];
      }
    }
  }

  /** How often bytes of the range are counted again, because an earlier region has them. */
  ghost function Excess(es: seq<Region>, r: Range): nat
  {
    if es == [] then 0
    else var n := |es| - 1; Excess(es[..n], r) + |Covered(es[..n], r) * Piece(es[n], r)|
  }

  /** The summed overlap is the number of bytes covered plus those counted again. */
  lemma {:induction false} SumCounts(es: seq<Region>, r: Range)
    ensures TotalOverlap(es, r) == |Covered(es, r)| + Excess(es, r)
    decreases |es|
  {
    if es == [] {
      assert Covered(es, r) == {};
    } else {
      var n := |es| - 1;
      SumCounts(es[..n], r);
      CoveredStep(es, r);
      PieceSize(es[n], r);
      UnionSize(Covered(es[..n], r), Piece(es[n], r));
    }
  }

  lemma UnionSize(a: set<nat>, p: set<nat>)
    ensures |a + p| == |a| + |p| - |a * p|
  {
    assert a + p == a + (p - a);
    assert p == (p - a) + a * p;
  }

  lemma {:induction false} NoExcess(es: seq<Region>, r: Range)
    requires DisjointUsable(es)
    ensures Excess(es, r) == 0
    decreases |es|
  {
    if es != [] {
      var n := |es| - 1;
      assert DisjointUsable(es[..n]);
      NoExcess(es[..n], r);
      PieceSize(es[n], r);
      assert Covered(es[..n], r) * Piece(es[n], r) == {};
    }
  }

  /** Bytes of the range outside usable memory. */
  ghost function Missing(es: seq<Region>, r: Range): set<nat> { Interval(r.start, r.end) - Covered(es, r) }

  /** For every map: the check passes exactly when no more bytes are missing than are counted
      again, so its answer is right exactly when nothing is missing or more is; over disjoint
      regions nothing is counted again and the check is exact. */
  lemma KernelCheckExact(es: seq<Region>, r: Range)
    requires r.start <= r.end
    ensures TotalOverlap(es, r) >= r.end - r.start <==> |Missing(es, r)| <= Excess(es, r)
    ensures (TotalOverlap(es, r) >= r.end - r.start <==> forall x :: r.start <= x < r.end ==> Usable(es, x)) <==>
            Missing(es, r) == {} || |Missing(es, r)| > Excess(es, r)
    ensures DisjointUsable(es) ==>
              (TotalOverlap(es, r) >= r.end - r.start <==> forall x :: r.start <= x < r.end ==> Usable(es, x))
  {
    hide *;
    SumCounts(es, r);
    MissingCounts(es, r);
    if DisjointUsable(es) { NoExcess(es, r); }
  }

  lemma MissingCounts(es: seq<Region>, r: Range)
    requires r.start <= r.end
    ensures |Missing(es, r)| == r.end - r.start - |Covered(es, r)|
    ensures Missing(es, r) == {} <==> forall x :: r.start <= x < r.end ==> Usable(es, x)
    ensures Missing(es, r) == {} <==> |Missing(es, r)| == 0
  {
    hide Usable;
    var all, some := Interval(r.start, r.end), Covered(es, r);
    assert all == some + Missing(es, r);
    if Missing(es, r) == {} {
      forall x | r.start <= x < r.end ensures Usable(es, x) { assert x in some; }
    } else {
      var x :| x in Missing(es, r);
      assert !Usable(es, x);
    }
  }

  /** Overlapping regions can fool the check: a kernel of one page at 1 MiB passes although only
      its first half is usable, because that half is listed twice. */
  lemma OverlapFools()
    ensures var es := [Region(0x10_0000, 0x800, USABLE), Region(0x10_0000, 0x800, USABLE)];
      var r := Range(0x10_0000, 0x10_1000);
      TotalOverlap(es, r) >= r.end - r.start && forall x :: 0x10_0800 <= x < 0x10_1000 ==> !Usable(es, x)
  {
    var e := Region(0x10_0000, 0x800, USABLE);
    var es := [e, e];
    var r := Range(0x10_0000, 0x10_1000);
    assert es[..1] == [e];
    assert es[..1][..0] == [];
    assert TotalOverlap(es[..1], r) == 0x800;
  }

  // ---------------------------------------------------------------- where RAM ends

  /** `find_max_page`: one past the last page of the highest usable region. */
  method FindMaxPage(es: seq<Region>) returns (m: nat)
    ensures forall i :: 0 <= i < |es| && es[i].kind == USABLE ==> EndOf(es[i]) / 4096 <= m
    ensures m != 0 ==> exists i :: 0 <= i < |es| && es[i].kind == USABLE && EndOf(es[i]) / 4096 == m
  {
    m := 0;
    for k := 0 to |es|
      invariant forall i :: 0 <= i < k && es[i].kind == USABLE ==> EndOf(es[i]) / 4096 <= m
      invariant m != 0 ==> exists i :: 0 <= i < k && es[i].kind == USABLE && EndOf(es[i]) / 4096 == m
    {
      if es[k].kind == USABLE && EndOf(es[k]) / 4096 > m {
        m := EndOf(es[k]) / 4096;
      }
    }
  }

  // ---------------------------------------------------------------- a place for the bitmap

  function U32(x: nat): nat { x % U32_SIZE }

  /** `align_up` to a page, in 32 bits. */
  function AlignUp(a: nat): nat { U32(a + 4095) / 4096 * 4096 }

  lemma AlignUpIs(a: nat)
    requires a + 4095 < U32_SIZE
    ensures a <= AlignUp(a) < a + 4096 && AlignUp(a) % 4096 == 0
    ensures forall s: nat :: s % 4096 == 0 && s < AlignUp(a) ==> s < a
  {
    forall s: nat | s % 4096 == 0 && s < AlignUp(a) ensures s < a {
      assert s / 4096 < (a + 4095) / 4096;
    }
  }

  /** `ranges_overlap` of `bytes` bytes at `s` with a range. */
  predicate Hits(s: nat, bytes: nat, r: Range) { s < r.end && r.start < s + bytes }

  /** A nonzero page-aligned start in the region where the bytes fit clear of all ranges. */
  predicate Fits(e: Region, bytes: nat, avoid: seq<Range>, s: nat)
  {
    && e.kind == USABLE && s % 4096 == 0 && s > 0 && e.addr <= s && s + bytes <= EndOf(e)
    && forall j :: 0 <= j < |avoid| ==> !Hits(s, bytes, avoid[j])
  }

  /** Everything stays far enough below 4 GiB that no sum wraps. */
  predicate NoWrap(es: seq<Region>, bytes: nat, avoid: seq<Range>)
  {
    && (forall i :: 0 <= i < |es| && es[i].kind == USABLE ==> EndOf(es[i]) + 4096 + bytes < U32_SIZE)
    && (forall j :: 0 <= j < |avoid| ==> avoid[j].end + 4096 + bytes < U32_SIZE)
  }

  /** Jumping past an obstacle skips no start at which the bytes would fit. */
  lemma JumpSkipsNothing(e: Region, bytes: nat, avoid: seq<Range>, j: nat, start: nat, s: nat)
    requires j < |avoid| && Hits(start, bytes, avoid[j]) && avoid[j].end + 4095 < U32_SIZE
    requires start <= s < AlignUp(avoid[j].end)
    ensures !Fits(e, bytes, avoid, s)
  {
    AlignUpIs(avoid[j].end);
    if s % 4096 == 0 {
      assert Hits(s, bytes, avoid[j]);
    }
  }

  /** First range from `j` on that the bytes at `start` would hit; |avoid| if none. */
  function FirstHit(start: nat, bytes: nat, avoid: seq<Range>, j: nat): (k: nat)
    requires j <= |avoid|
    ensures j <= k <= |avoid|
    ensures k < |avoid| ==> Hits(start, bytes, avoid[k])
    ensures forall i :: j <= i < k ==> !Hits(start, bytes, avoid[i])
    decreases |avoid| - j
  {
    if j == |avoid| || Hits(start, bytes, avoid[j]) then j else FirstHit(start, bytes, avoid, j + 1)
  }

  /** A start reached by the search: aligned, in the region, and nothing before it fits. */
  ghost predicate Searched(e: Region, bytes: nat, avoid: seq<Range>, start: nat)
  {
    && 0 < start && start % 4096 == 0 && e.addr <= start && start + bytes < U32_SIZE
    && forall s: nat :: s < start ==> !Fits(e, bytes, avoid, s)
  }

  lemma SearchStarts(e: Region, bytes: nat, avoid: seq<Range>)
    requires e.kind == USABLE && NoWrap([e], bytes, avoid)
    ensures U32(e.addr) == e.addr && U32(EndOf(e)) == EndOf(e)
    ensures Searched(e, bytes, avoid, AlignUp(if e.addr == 0 then 1 else e.addr))
  {
    assert [e][0] == e;
    AlignUpIs(if e.addr == 0 then 1 else e.addr);
  }

  lemma SearchJumps(e: Region, bytes: nat, avoid: seq<Range>, j: nat, start: nat)
    requires NoWrap([e], bytes, avoid) && Searched(e, bytes, avoid, start)
    requires j < |avoid| && Hits(start, bytes, avoid[j])
    ensures start < AlignUp(avoid[j].end) && Searched(e, bytes, avoid, AlignUp(avoid[j].end))
  {
    AlignUpIs(avoid[j].end);
    forall s: nat | s < AlignUp(avoid[j].end) ensures !Fits(e, bytes, avoid, s) {
      if start <= s { JumpSkipsNothing(e, bytes, avoid, j, start, s); }
    }
  }

  /** What a search that stands at `start` knows: no sum wraps, nothing before fits, and this
      start fits exactly when it is inside and hits nothing. */
  lemma SearchBounds(e: Region, bytes: nat, avoid: seq<Range>, start: nat)
    requires e.kind == USABLE && Searched(e, bytes, avoid, start)
    ensures start > 0 && U32(start + bytes) == start + bytes
    ensures forall s: nat :: s < start ==> !Fits(e, bytes, avoid, s)
    ensures start + bytes > EndOf(e) ==> forall s: nat :: !Fits(e, bytes, avoid, s)
    ensures start + bytes <= EndOf(e) && (forall i :: 0 <= i < |avoid| ==> !Hits(start, bytes, avoid[i])) ==>
              Fits(e, bytes, avoid, start)
  {
  }

  /** The inner loop of `find_segment`: the least fitting start of one usable region, 0 if
      none; `avoid` is kernel, multiboot info, memory map, in the order the code checks them. */
  method FindInRegion(e: Region, bytes: nat, avoid: seq<Range>) returns (start: nat)
    requires e.kind == USABLE && NoWrap([e], bytes, avoid)
    ensures start != 0 ==> Fits(e, bytes, avoid, start) && forall s: nat :: s < start ==> !Fits(e, bytes, avoid, s)
    ensures start == 0 ==> forall s: nat :: !Fits(e, bytes, avoid, s)
  {
    hide *;
    SearchStarts(e, bytes, avoid);
    var estart := if e.addr == 0 then 1 else U32(e.addr);
    var eend := U32(EndOf(e));
    start := AlignUp(estart);
    while U32(start + bytes) <= eend
      invariant Searched(e, bytes, avoid, start)
      decreases eend + 1 - start
    {
      SearchBounds(e, bytes, avoid, start);
      var j := FirstHit(start, bytes, avoid, 0);
      if j == |avoid| {
        return;
      }
      SearchJumps(e, bytes, avoid, j, start);
      start := AlignUp(avoid[j].end);
    }
    SearchBounds(e, bytes, avoid, start);
    start := 0;
  }

  /** Region `i` is the first with a fitting start, and `start` is the least of its own. */
  ghost predicate BestFit(es: seq<Region>, bytes: nat, avoid: seq<Range>, i: nat, start: nat)
  {
    && i < |es| && Fits(es[i], bytes, avoid, start)
    && (forall s: nat :: s < start ==> !Fits(es[i], bytes, avoid, s))
    && (forall k, s: nat :: 0 <= k < i ==> !Fits(es[k], bytes, avoid, s))
  }

  /** `find_segment` refines exhaustive search: the least fitting start of the first region
      that has one, and 0 exactly when no region has one. */
  method FindSegment(es: seq<Region>, bytes: nat, avoid: seq<Range>) returns (start: nat)
    requires NoWrap(es, bytes, avoid)
    ensures start != 0 <==> exists i, s: nat :: 0 <= i < |es| && Fits(es[i], bytes, avoid, s)
    ensures start != 0 ==> exists i: nat :: BestFit(es, bytes, avoid, i, start)
  {
    for k := 0 to |es|
      invariant forall i, s: nat :: 0 <= i < k ==> !Fits(es[i], bytes, avoid, s)
    {
      if es[k].kind == USABLE {
        assert NoWrap([es[k]], bytes, avoid);
        start := FindInRegion(es[k], bytes, avoid);
        if start != 0 {
          assert BestFit(es, bytes, avoid, k, start);
          return;
        }
      }
    }
    start := 0;
  }
}
