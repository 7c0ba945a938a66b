/**
 * The physical frame allocator, as a value: frames are numbered from 0, and `used` holds
 * the frames whose bitmap bit is set.  The class `PmmImpl.PageAllocator` refines these functions.
 */
module PmmSpec {
  import opened Common

  /** `doubleFree` latches a call of `Free` on a frame that is not allocated. */
  datatype Pmm = Pmm(max: nat, used: set<nat>, doubleFree: bool)

  /** Lowest clear frame at or above `from`; 0 when there is none. */
  function FirstFree(p: Pmm, from: nat): (f: nat)
    requires 1 <= from
    ensures f == 0 ==> forall i :: from <= i < p.max ==> i in p.used
    ensures f != 0 ==> from <= f < p.max && f !in p.used
    ensures f != 0 ==> forall i :: from <= i < f ==> i in p.used
    decreases p.max - from
  {
    if from >= p.max then 0
    else if from !in p.used then from
    else FirstFree(p, from + 1)
  }

  /** `pmm_alloc_page`: the lowest free frame above 0, or 0 on exhaustion. */
  function Alloc(p: Pmm): (r: (Pmm, nat))
  {
    var f := FirstFree(p, 1);
    if f == 0 then (p, 0) else (p.(used := p.used + {f}), f)
  }

  /** `pmm_free_page`: out-of-range frames and frame 0 are ignored. */
  function Free(p: Pmm, f: nat): (r: Pmm)
  {
    if f == 0 || f >= p.max then p
    else if f in p.used then p.(used := p.used - {f})
    else p.(doubleFree := true)
  }

  /** Allocation followed by the direct-map check every kernel user of a frame makes:
      a frame the kernel cannot reach is handed back and the request fails. */
  function AllocDirect(p: Pmm): (r: (Pmm, nat))
  {
    var (p', f) := Alloc(p);
    if f == 0 then (p, 0)
    else if f >= DIRECT_PAGES then (Free(p', f), 0)
    else (p', f)
  }

  /** A successful direct allocation takes the lowest free frame and nothing else; a failed
      one leaves the allocator as it was and means no free frame lies in the direct map. */
  lemma AllocDirectEffect(p: Pmm)
    ensures var (p', f) := AllocDirect(p);
      if f == 0 then
        p' == p && forall i :: 1 <= i < p.max && i < DIRECT_PAGES ==> i in p.used
      else
        && 1 <= f < p.max && f < DIRECT_PAGES && f !in p.used
        && p' == p.(used := p.used + {f})
        && forall i :: 1 <= i < f ==> i in p.used
  {
    var (p', f) := Alloc(p);
    if f != 0 && f >= DIRECT_PAGES {
      assert p.used + {f} - {f} == p.used;
    }
  }

  /** Frames the kernel can still allocate and reach. */
  ghost function FreeDirect(p: Pmm): set<nat>
  {
    set f: nat | 1 <= f < p.max && f < 4096 && f !in p.used
  }

  /** Lowest-first allocation yields a reachable frame as long as there is one. */
  lemma AllocCounts(p: Pmm)
    ensures var f := Alloc(p).1; f == 0 || f >= 4096 <==> FreeDirect(p) == {}
    ensures var f := Alloc(p).1; 0 < f < 4096 ==> f in FreeDirect(p) && Alloc(p).0 == p.(used := p.used + {f})
  {
    var f := Alloc(p).1;
    if 0 < f < 4096 {
      assert f in FreeDirect(p);
    }
  }

  lemma FewerFree(p: Pmm, p': Pmm)
    requires p'.max == p.max && p.used <= p'.used
    ensures FreeDirect(p') <= FreeDirect(p)
  {
  }

  lemma TakeOne(p: Pmm, f: nat)
    requires f in FreeDirect(p)
    ensures |FreeDirect(p.(used := p.used + {f}))| == |FreeDirect(p)| - 1
    ensures f !in p.used
  {
    assert FreeDirect(p.(used := p.used + {f})) == FreeDirect(p) - {f};
  }
}
