/** `kernel/mm/vmm.c` on directory and table words in physical memory. */
module VmmImpl {
  import opened Common
  import opened PmmSpec
  import opened VmSpec
  import opened PmmImpl

  // ---------------------------------------------------------------- words

  /** A 32-bit entry, cut where the hardware cuts it: bits 31..12 and bits 11..0. */
  datatype Word = Word(frame: nat, flags: bv12)

  const ZERO: Word := Word(0, 0)

  predicate Present(w: Word) { w.flags & 1 != 0 }

  function Decode(w: Word): Mapping { Mapping(w.frame, w.flags & 2 != 0, w.flags & 4 != 0) }

  /** `entry |= flags & (WRITABLE | USER)`. */
  function Widen(w: Word, flags: bv12): Word { w.(flags := w.flags | (flags & 6)) }

  lemma WidenIs(w: Word, flags: bv12)
    ensures Widen(w, flags).frame == w.frame && (Present(Widen(w, flags)) <==> Present(w))
    ensures var m := Decode(w);
      Decode(Widen(w, flags)) == m.(writable := m.writable || flags & 2 != 0, user := m.user || flags & 4 != 0)
  {
  }

  lemma NewTable(t: nat)
    ensures Present(Word(t, 1)) && Decode(Word(t, 1)) == Mapping(t, false, false) && !Present(ZERO)
    ensures Present(Word(t, 3)) && Decode(Word(t, 3)) == Mapping(t, true, false)
  {
  }

  // ---------------------------------------------------------------- physical memory

  /** The frames of the direct map, as words. */
  type Memory = seq<seq<Word>>

  predicate Shape(m: Memory) { |m| == 4096 && forall f :: 0 <= f < 4096 ==> |m[f]| == 1024 }

  function Get(m: Memory, f: nat, i: nat): Word
  {
    if f < |m| && i < |m[f]| then m[f][i] else ZERO
  }

  function Put(m: Memory, f: nat, i: nat, w: Word): Memory
    requires f < |m| && i < |m[f]|
  {
    m[f := m[f][i := w]]
  }

  /** `memset` of a whole frame to 0. */
  function Cleared(m: Memory, f: nat): Memory
    requires f < |m|
  {
    m[f := seq(1024, _ => ZERO)]
  }

  lemma GetPut(m: Memory, f: nat, i: nat, w: Word)
    requires Shape(m) && f < 4096 && i < 1024
    ensures Shape(Put(m, f, i, w))
    ensures forall g: nat, j: nat :: Get(Put(m, f, i, w), g, j) == if g == f && j == i then w else Get(m, g, j)
  {
  }

  lemma GetCleared(m: Memory, f: nat)
    requires Shape(m) && f < 4096
    ensures Shape(Cleared(m, f))
    ensures forall g: nat, j: nat :: Get(Cleared(m, f), g, j) == if g == f then ZERO else Get(m, g, j)
  {
  }

  // ---------------------------------------------------------------- what the words mean

  /** The table entry of page `x`, through directory `d`. */
  function Leaf(m: Memory, d: nat, x: nat): Word { Get(m, Get(m, d, x / 1024).frame, x % 1024) }

  /** The processor's walk: both levels present, and a right needs both levels. */
  function Walk(m: Memory, d: nat, x: nat): Option<Mapping>
  {
    var pde, pte := Get(m, d, x / 1024), Leaf(m, d, x);
    if Present(pde) && Present(pte) then
      var a, b := Decode(pde), Decode(pte);
      Some(Mapping(b.frame, b.writable && a.writable, b.user && a.user))
    else None
  }

  function Tables(m: Memory, d: nat): map<nat, Mapping>
  {
    map i: nat | i < 1024 && Present(Get(m, d, i)) :: Decode(Get(m, d, i))
  }

  /** Present entries of the tables behind the first `pages / 1024` directory entries. */
  function Leaves(m: Memory, d: nat, pages: nat): map<nat, Mapping>
  {
    map x: nat | x < pages && Present(Get(m, d, x / 1024)) && Present(Leaf(m, d, x)) :: Decode(Leaf(m, d, x))
  }

  function OwnPages(kdir: nat, d: nat): nat { if d == kdir then 1048576 else 786432 }

  function SpaceOf(m: Memory, kdir: nat, d: nat): Space
  {
    Space(Tables(m, d), Leaves(m, d, OwnPages(kdir, d)))
  }

  ghost function SpacesOf(m: Memory, kdir: nat, dirs: set<nat>): map<nat, Space>
  {
    map d | d in dirs :: SpaceOf(m, kdir, d)
  }

  // ---------------------------------------------------------------- separation

  predicate OwnEntry(kdir: nat, d: nat, i: nat) { i < 768 || (i < 1024 && d == kdir) }

  /** Each owned directory entry leads to a frame that `owner` knows by that entry. */
  ghost predicate TablesOwned(m: Memory, kdir: nat, dirs: set<nat>, owner: map<nat, (nat, nat)>)
  {
    forall d, i: nat :: d in dirs && OwnEntry(kdir, d, i) && Present(Get(m, d, i)) ==>
      var f := Get(m, d, i).frame; 0 < f < 4096 && f in owner && owner[f] == (d, i)
  }

  /** `owner` knows no other frames. */
  ghost predicate OwnersLive(m: Memory, kdir: nat, dirs: set<nat>, owner: map<nat, (nat, nat)>)
  {
    forall f :: f in owner ==>
      && owner[f].0 in dirs && OwnEntry(kdir, owner[f].0, owner[f].1)
      && Present(Get(m, owner[f].0, owner[f].1)) && Get(m, owner[f].0, owner[f].1).frame == f
  }

  /** Kernel-half entries of other directories are copies of the kernel directory's. */
  ghost predicate HighCopies(m: Memory, kdir: nat, dirs: set<nat>)
  {
    forall d, i: nat :: d in dirs && 768 <= i < 1024 && Present(Get(m, d, i)) ==>
      Present(Get(m, kdir, i)) && Get(m, kdir, i).frame == Get(m, d, i).frame
  }

  /** Directories and tables all occupy different frames. */
  ghost predicate Separate(m: Memory, kdir: nat, dirs: set<nat>, owner: map<nat, (nat, nat)>)
  {
    && Shape(m) && kdir in dirs
    && (forall d :: d in dirs ==> 0 < d < 4096 && d !in owner)
    && TablesOwned(m, kdir, dirs, owner) && OwnersLive(m, kdir, dirs, owner) && HighCopies(m, kdir, dirs)
  }

  /** The decoded tables translate every page exactly as the processor's walk of the words. */
  lemma WalkIsLookup(m: Memory, kdir: nat, dirs: set<nat>, owner: map<nat, (nat, nat)>, v: Vm, d: nat, x: nat)
    requires Separate(m, kdir, dirs, owner) && v.kdir == kdir && v.spaces == SpacesOf(m, kdir, dirs)
    requires d in dirs && x < 1048576
    ensures Walk(m, d, x) == Lookup(v, d, x)
  {
    hide Present; hide Decode;
    var i := x / 1024;
    assert v.spaces[d] == SpaceOf(m, kdir, d) && v.spaces[kdir] == SpaceOf(m, kdir, kdir);
    if i >= 768 && Present(Get(m, d, i)) {
      assert Get(m, kdir, i).frame == Get(m, d, i).frame;
    }
  }

  /** A change that touches neither a directory nor the tables it owns leaves its space. */
  lemma SameSpace(m: Memory, m': Memory, kdir: nat, d: nat)
    requires forall i: nat :: i < 1024 ==> Get(m', d, i) == Get(m, d, i)
    requires forall i: nat, j: nat :: OwnEntry(kdir, d, i) && Present(Get(m, d, i)) ==>
               Get(m', Get(m, d, i).frame, j) == Get(m, Get(m, d, i).frame, j)
    ensures SpaceOf(m', kdir, d) == SpaceOf(m, kdir, d)
  {
    assert Tables(m', d) == Tables(m, d);
    forall x: nat | x < OwnPages(kdir, d) && Present(Get(m, d, x / 1024)) ensures Leaf(m', d, x) == Leaf(m, d, x) {
      assert OwnEntry(kdir, d, x / 1024);
    }
    assert Leaves(m', d, OwnPages(kdir, d)) == Leaves(m, d, OwnPages(kdir, d));
  }

  /** Directory `d` gets the zeroed frame `t` as the table of entry `i`. */
  function WithTable(m: Memory, d: nat, i: nat, t: nat): Memory
    requires Shape(m) && d < 4096 && i < 1024 && t < 4096
  {
    Put(Cleared(m, t), d, i, Word(t, 1))
  }

  lemma WithTableGet(m: Memory, d: nat, i: nat, t: nat)
    requires Shape(m) && d < 4096 && i < 1024 && t < 4096 && t != d
    ensures Shape(WithTable(m, d, i, t))
    ensures forall g: nat, j: nat :: Get(WithTable(m, d, i, t), g, j) ==
              if g == d && j == i then Word(t, 1) else if g == t then ZERO else Get(m, g, j)
  {
    GetCleared(m, t);
    GetPut(Cleared(m, t), d, i, Word(t, 1));
  }

  /** Entry `i` of `d` becomes `w`; of all other words only those of frame `w.frame` change. */
  ghost predicate Linked(m: Memory, m': Memory, d: nat, i: nat, w: Word)
  {
    forall g: nat, j: nat :: g != w.frame ==> Get(m', g, j) == if g == d && j == i then w else Get(m, g, j)
  }

  lemma LinkSeparate(m: Memory, m': Memory, kdir: nat, dirs: set<nat>, owner: map<nat, (nat, nat)>, d: nat, i: nat, w: Word)
    requires Separate(m, kdir, dirs, owner) && d in dirs && OwnEntry(kdir, d, i) && !Present(Get(m, d, i))
    requires Present(w) && 0 < w.frame < 4096 && w.frame !in dirs && w.frame !in owner
    requires Linked(m, m', d, i, w) && Shape(m')
    ensures Separate(m', kdir, dirs, owner[w.frame := (d, i)])
  {
    hide Present; hide Decode; hide Get;
    assert forall d2, j: nat :: d2 in dirs && !(d2 == d && j == i) ==> Get(m', d2, j) == Get(m, d2, j);
    assert Get(m', d, i) == w;
  }

  lemma AddTableSpaces(m: Memory, m': Memory, kdir: nat, dirs: set<nat>, owner: map<nat, (nat, nat)>, d: nat, i: nat, t: nat)
    requires Separate(m, kdir, dirs, owner) && d in dirs && OwnEntry(kdir, d, i) && !Present(Get(m, d, i))
    requires 0 < t < 4096 && t !in dirs && t !in owner
    requires Linked(m, m', d, i, Word(t, 1)) && forall j: nat :: Get(m', t, j) == ZERO
    ensures forall d2 :: d2 in dirs && d2 != d ==> SpaceOf(m', kdir, d2) == SpaceOf(m, kdir, d2)
    ensures SpaceOf(m', kdir, d) ==
            SpaceOf(m, kdir, d).(tables := SpaceOf(m, kdir, d).tables[i := Mapping(t, false, false)])
  {
    hide Present; hide Decode; hide Get;
    NewTable(t);
    forall d2 | d2 in dirs && d2 != d ensures SpaceOf(m', kdir, d2) == SpaceOf(m, kdir, d2) {
      SameSpace(m, m', kdir, d2);
    }
    assert Tables(m', d) == Tables(m, d)[i := Mapping(t, false, false)];
    forall x: nat | x < OwnPages(kdir, d)
      ensures Present(Get(m', d, x / 1024)) && Present(Leaf(m', d, x)) <==> Present(Get(m, d, x / 1024)) && Present(Leaf(m, d, x))
      ensures Present(Get(m, d, x / 1024)) ==> Leaf(m', d, x) == Leaf(m, d, x) {
      assert OwnEntry(kdir, d, x / 1024);
    }
    SameLeaves(m, m', d, OwnPages(kdir, d));
  }

  lemma SameLeaves(m: Memory, m': Memory, d: nat, pages: nat)
    requires forall x: nat :: x < pages ==>
      (Present(Get(m', d, x / 1024)) && Present(Leaf(m', d, x)) <==> Present(Get(m, d, x / 1024)) && Present(Leaf(m, d, x)))
      && (Present(Get(m, d, x / 1024)) ==> Leaf(m', d, x) == Leaf(m, d, x))
    ensures Leaves(m', d, pages) == Leaves(m, d, pages)
  {
    hide Present; hide Decode; hide Get; hide Leaf;
  }

  /** Entry `i` of `d` becomes `w`, which keeps its table, and page `x` of that table `l`. */
  function WithLeaf(m: Memory, d: nat, x: nat, w: Word, l: Word): Memory
    requires Shape(m) && d < 4096 && x / 1024 < 1024 && w.frame < 4096
  {
    Put(Put(m, d, x / 1024, w), w.frame, x % 1024, l)
  }

  lemma WithLeafGet(m: Memory, d: nat, x: nat, w: Word, l: Word)
    requires Shape(m) && d < 4096 && x / 1024 < 1024 && w.frame < 4096 && d != w.frame
    ensures Shape(WithLeaf(m, d, x, w, l))
    ensures forall g: nat, j: nat :: Get(WithLeaf(m, d, x, w, l), g, j) ==
              if g == w.frame && j == x % 1024 then l else if g == d && j == x / 1024 then w else Get(m, g, j)
  {
    GetPut(m, d, x / 1024, w);
    GetPut(Put(m, d, x / 1024, w), w.frame, x % 1024, l);
  }

  ghost predicate LeafSet(m: Memory, m': Memory, d: nat, x: nat, w: Word, l: Word)
  {
    forall g: nat, j: nat :: Get(m', g, j) ==
      if g == w.frame && j == x % 1024 then l else if g == d && j == x / 1024 then w else Get(m, g, j)
  }

  lemma SetLeafSeparate(m: Memory, m': Memory, kdir: nat, dirs: set<nat>, owner: map<nat, (nat, nat)>, d: nat, x: nat, w: Word, l: Word)
    requires Separate(m, kdir, dirs, owner) && d in dirs && OwnEntry(kdir, d, x / 1024)
    requires Present(Get(m, d, x / 1024)) && Present(w) && w.frame == Get(m, d, x / 1024).frame
    requires LeafSet(m, m', d, x, w, l) && Shape(m')
    ensures Separate(m', kdir, dirs, owner)
  {
    hide Present; hide Decode; hide Get;
    assert w.frame in owner && w.frame !in dirs;
    assert forall d2, j: nat :: d2 in dirs && !(d2 == d && j == x / 1024) ==> Get(m', d2, j) == Get(m, d2, j);
    assert Get(m', d, x / 1024) == w;
  }

  lemma SetLeafSpaces(m: Memory, m': Memory, kdir: nat, dirs: set<nat>, owner: map<nat, (nat, nat)>, d: nat, x: nat, w: Word, l: Word)
    requires Separate(m, kdir, dirs, owner) && d in dirs && OwnEntry(kdir, d, x / 1024)
    requires Present(Get(m, d, x / 1024)) && Present(w) && w.frame == Get(m, d, x / 1024).frame
    requires LeafSet(m, m', d, x, w, l)
    ensures forall d2 :: d2 in dirs && d2 != d ==> SpaceOf(m', kdir, d2) == SpaceOf(m, kdir, d2)
    ensures var s := SpaceOf(m, kdir, d);
      SpaceOf(m', kdir, d) == Space(s.tables[x / 1024 := Decode(w)],
                                    if Present(l) then s.leaves[x := Decode(l)] else s.leaves - {x})
  {
    hide Present; hide Decode; hide Get;
    assert w.frame in owner && owner[w.frame] == (d, x / 1024) && w.frame !in dirs;
    forall d2 | d2 in dirs && d2 != d ensures SpaceOf(m', kdir, d2) == SpaceOf(m, kdir, d2) {
      SameSpace(m, m', kdir, d2);
    }
    assert Tables(m', d) == Tables(m, d)[x / 1024 := Decode(w)];
    forall y: nat | y < OwnPages(kdir, d) && Present(Get(m, d, y / 1024))
      ensures Leaf(m', d, y) == if y == x then l else Leaf(m, d, y) {
      assert OwnEntry(kdir, d, y / 1024);
    }
    SetLeafLeaves(m, m', d, x, OwnPages(kdir, d), w, l);
  }

  lemma SetLeafLeaves(m: Memory, m': Memory, d: nat, x: nat, pages: nat, w: Word, l: Word)
    requires x < pages && Present(Get(m, d, x / 1024)) && Present(w)
    requires forall i: nat :: Get(m', d, i) == if i == x / 1024 then w else Get(m, d, i)
    requires forall y: nat :: y < pages && Present(Get(m, d, y / 1024)) ==>
               Leaf(m', d, y) == if y == x then l else Leaf(m, d, y)
    ensures Leaves(m', d, pages) == if Present(l) then Leaves(m, d, pages)[x := Decode(l)] else Leaves(m, d, pages) - {x}
  {
    hide Present; hide Decode; hide Get; hide Leaf;
  }

  /** Frame `d` becomes a directory: empty below, kernel entries copied above. */
  ghost predicate Copied(m: Memory, m': Memory, kdir: nat, d: nat)
  {
    forall g: nat, j: nat :: Get(m', g, j) ==
      if g != d then Get(m, g, j) else if 768 <= j < 1024 then Get(m, kdir, j) else ZERO
  }

  lemma AddDirectory(m: Memory, m': Memory, kdir: nat, dirs: set<nat>, owner: map<nat, (nat, nat)>, d: nat)
    requires Separate(m, kdir, dirs, owner) && 0 < d < 4096 && d !in dirs && d !in owner
    requires Copied(m, m', kdir, d) && Shape(m')
    ensures Separate(m', kdir, dirs + {d}, owner)
    ensures forall d2 :: d2 in dirs ==> SpaceOf(m', kdir, d2) == SpaceOf(m, kdir, d2)
  {
    hide Present; hide Decode; hide Get;
    NewTable(d);
    forall d2 | d2 in dirs ensures SpaceOf(m', kdir, d2) == SpaceOf(m, kdir, d2) {
      SameSpace(m, m', kdir, d2);
    }
  }

  lemma NewSpace(m: Memory, m': Memory, kdir: nat, d: nat)
    requires Copied(m, m', kdir, d) && d != kdir
    ensures SpaceOf(m', kdir, d).leaves == map[]
    ensures SpaceOf(m', kdir, d).tables == map i | i in Tables(m, kdir) && i >= 768 :: Tables(m, kdir)[i]
  {
    hide Present; hide Decode; hide Get;
    NewTable(d);
    assert forall x: nat :: x < 786432 ==> x / 1024 < 768;
  }

  /** The spaces after a step that changed the space of `d` only. */
  lemma SpacesGrow(m: Memory, m': Memory, kdir: nat, dirs: set<nat>, d: nat)
    requires forall d2 :: d2 in dirs && d2 != d ==> SpaceOf(m', kdir, d2) == SpaceOf(m, kdir, d2)
    ensures SpacesOf(m', kdir, dirs + {d}) == SpacesOf(m, kdir, dirs)[d := SpaceOf(m', kdir, d)]
    ensures d in dirs ==> SpacesOf(m', kdir, dirs) == SpacesOf(m, kdir, dirs)[d := SpaceOf(m', kdir, d)]
  {
    hide SpaceOf;
  }

  lemma RemoveDirectory(m: Memory, kdir: nat, dirs: set<nat>, owner: map<nat, (nat, nat)>, d: nat)
    requires Separate(m, kdir, dirs, owner) && d in dirs && d != kdir
    ensures Separate(m, kdir, dirs - {d}, map f | f in owner && owner[f].0 != d :: owner[f])
  {
    hide Present; hide Decode; hide Get;
  }

  /** Words of allocated frames that hold neither a directory nor a table are as they were. */
  ghost predicate ForeignKept(m: Memory, m': Memory, used: set<nat>, dirs: set<nat>, owner: map<nat, (nat, nat)>)
  {
    forall g: nat, j: nat :: g in used && g !in dirs && g !in owner ==> Get(m', g, j) == Get(m, g, j)
  }

  lemma ForeignTwice(m: Memory, m1: Memory, m2: Memory, used: set<nat>, used1: set<nat>, dirs: set<nat>,
                     owner: map<nat, (nat, nat)>, owner1: map<nat, (nat, nat)>)
    requires ForeignKept(m, m1, used, dirs, owner) && ForeignKept(m1, m2, used1, dirs, owner1)
    requires used <= used1 && forall g :: g in owner1 && g !in owner ==> g !in used
    ensures ForeignKept(m, m2, used, dirs, owner)
  {
    hide Get;
  }

  lemma LeafForeign(m: Memory, m': Memory, kdir: nat, dirs: set<nat>, owner: map<nat, (nat, nat)>, d: nat, x: nat,
                    w: Word, l: Word, used: set<nat>)
    requires Separate(m, kdir, dirs, owner) && d in dirs && OwnEntry(kdir, d, x / 1024)
    requires Present(Get(m, d, x / 1024)) && w.frame == Get(m, d, x / 1024).frame && LeafSet(m, m', d, x, w, l)
    ensures ForeignKept(m, m', used, dirs, owner)
  {
    hide Get; hide Present;
    assert w.frame in owner;
  }

  lemma CopiedForeign(m: Memory, m': Memory, kdir: nat, d: nat, used: set<nat>, dirs: set<nat>, owner: map<nat, (nat, nat)>)
    requires Copied(m, m', kdir, d) && d !in used
    ensures ForeignKept(m, m', used, dirs, owner)
  {
    hide Get;
  }

  lemma ForeignSame(m: Memory, used: set<nat>, dirs: set<nat>, owner: map<nat, (nat, nat)>)
    ensures ForeignKept(m, m, used, dirs, owner)
  {
  }

  // ---------------------------------------------------------------- the direct map

  /** `vmm_phys_to_virt` and `vmm_virt_to_phys`; 0 is NULL. */
  function PhysToVirt(paddr: nat): nat { if paddr >= 0x100_0000 then 0 else 0xC000_0000 + paddr }

  function VirtToPhys(vaddr: nat): nat
  {
    if vaddr < 0xC000_0000 || vaddr >= 0xC100_0000 then 0 else vaddr - 0xC000_0000
  }

  /** Inverse to each other between the first 16 MiB and their window; 0 outside. */
  lemma Conversions(a: nat)
    ensures PhysToVirt(a) != 0 <==> a < 0x100_0000
    ensures a < 0x100_0000 ==> VirtToPhys(PhysToVirt(a)) == a
    ensures VirtToPhys(a) != 0 ==> PhysToVirt(VirtToPhys(a)) == a
    ensures VirtToPhys(a) == 0 <==> a <= 0xC000_0000 || a >= 0xC100_0000
  {
  }

  // ---------------------------------------------------------------- the kernel's operations

  class Paging {
    const pmm: PageAllocator
    var mem: Memory
    var kdir: nat
    var cr3: nat
    ghost var dirs: set<nat>
    ghost var owner: map<nat, (nat, nat)>
    ghost var tlb: map<nat, Mapping>
    ghost var badDestroy: bool

    ghost predicate Valid()
      reads this, pmm, pmm.bitmap
    {
      && pmm.Valid() && Separate(mem, kdir, dirs, owner)
      && dirs <= pmm.UsedPages() && owner.Keys <= pmm.UsedPages()
    }

    ghost function State(): Vm
      reads this
    {
      Vm(kdir, SpacesOf(mem, kdir, dirs), cr3, tlb, badDestroy)
    }

    /** A kernel-supplied address space: none, a live one, or one beyond the direct map. */
    ghost predicate Known(space: nat)
      reads this
    {
      space == 0 || space >= 0x100_0000 || (space % 4096 == 0 && space / 4096 in dirs)
    }

    /** Physical memory holds anything before `vmm_init`. */
    constructor (p: PageAllocator, m: Memory)
      requires Shape(m)
      ensures pmm == p && mem == m
    {
      pmm, mem := p, m;
    }

    method CopyKernelHalf(d: nat)
      requires Shape(mem) && d < 4096 && d != kdir
      modifies this`mem
      ensures Shape(mem) && Copied(old(mem), mem, kdir, d)
    {
      hide Present; hide Decode; hide Get; hide Put; hide Cleared;
      ghost var m := mem;
      GetCleared(mem, d);
      mem := Cleared(mem, d);
      for i := 768 to 1024
        invariant Shape(mem)
        invariant forall g: nat, j: nat ::
          Get(mem, g, j) == if g != d then Get(m, g, j) else if 768 <= j < i then Get(m, kdir, j) else ZERO
      {
        GetPut(mem, d, i, Get(mem, kdir, i));
        mem := Put(mem, d, i, Get(mem, kdir, i));
      }
    }

    /** `pmm_alloc_page` and the check that the kernel can reach the frame. */
    method AllocDirectPage() returns (addr: nat)
      requires pmm.Valid()
      modifies pmm, pmm.bitmap
      ensures pmm.Valid() && pmm.bitmap == old(pmm.bitmap)
      ensures (pmm.State(), addr / 4096) == AllocDirect(old(pmm.State())) && addr % 4096 == 0
    {
      hide UsedSet; hide ClearSet;
      AllocDirectEffect(pmm.State());
      addr := pmm.AllocPage();
      if addr != 0 && PhysToVirt(addr) == 0 {
        pmm.FreePage(addr);
        addr := 0;
      }
    }

    /** `vmm_create_address_space`. */
    method CreateAddressSpace() returns (space: nat)
      requires Valid()
      modifies this`mem, this`dirs, pmm, pmm.bitmap
      ensures Valid() && space % 4096 == 0
      ensures (pmm.State(), State(), space / 4096) == Create(old(pmm.State()), old(State()))
      ensures ForeignKept(old(mem), mem, old(pmm.UsedPages()), old(dirs), old(owner))
    {
      hide UsedSet; hide ClearSet; hide Separate; hide SpacesOf; hide SpaceOf; hide Copied; hide FirstFree;
      hide ForeignKept;
      ForeignSame(mem, pmm.UsedPages(), dirs, owner);
      AllocDirectEffect(pmm.State());
      space := AllocDirectPage();
      if space == 0 { return; }
      var d := space / 4096;
      KernelLive(mem, kdir, dirs, owner);
      CopyKernelHalf(d);
      CopiedForeign(old(mem), mem, kdir, d, old(pmm.UsedPages()), dirs, owner);
      AddDirectory(old(mem), mem, kdir, dirs, owner, d);
      dirs := dirs + {d};
      SpacesGrow(old(mem), mem, kdir, old(dirs), d);
      NewSpace(old(mem), mem, kdir, d);
      assert State().spaces == old(State()).spaces[d := Space(HighTables(old(State())), map[])];
    }

    /** The loop of `vmm_destroy_address_space`. */
    method FreeUserTables(d: nat)
      requires Valid() && d in dirs
      modifies pmm, pmm.bitmap
      ensures pmm.Valid() && pmm.bitmap == old(pmm.bitmap)
      ensures pmm.State() == FreeTables(old(pmm.State()), SpaceOf(mem, kdir, d), 0)
      ensures forall f :: f in old(pmm.UsedPages()) && (f in owner ==> owner[f].0 != d) ==> f in pmm.UsedPages()
    {
      hide UsedSet; hide ClearSet; hide Get; hide Present; hide Decode; hide Leaves;
      ghost var s := SpaceOf(mem, kdir, d);
      for i := 0 to 768
        invariant pmm.Valid() && pmm.bitmap == old(pmm.bitmap)
        invariant FreeTables(pmm.State(), s, i) == FreeTables(old(pmm.State()), s, 0)
        invariant forall f :: f in old(pmm.UsedPages()) && (f in owner ==> owner[f].0 != d) ==> f in pmm.UsedPages()
      {
        var entry := Get(mem, d, i);
        assert i in s.tables <==> Present(entry);
        if Present(entry) {
          assert OwnEntry(kdir, d, i);
          DecodeFrame(entry);
          pmm.FreePage(entry.frame * 4096);
        }
      }
    }

    /** `vmm_destroy_address_space`. */
    method DestroyAddressSpace(space: nat)
      requires Valid() && Known(space)
      modifies this`dirs, this`owner, pmm, pmm.bitmap
      ensures Valid()
      ensures if space >= 0x100_0000 then pmm.State() == old(pmm.State()) && State() == old(State())
              else (pmm.State(), State()) == Destroy(old(pmm.State()), old(State()), space / 4096)
    {
      hide UsedSet; hide ClearSet; hide SpaceOf; hide TablesOwned; hide OwnersLive; hide HighCopies; hide FreeTables;
      if space == 0 || space == kdir * 4096 { return; }
      if PhysToVirt(space) == 0 { return; }
      var d := space / 4096;
      FreeUserTables(d);
      pmm.FreePage(space);
      RemoveDirectory(mem, kdir, dirs, owner, d);
      dirs := dirs - {d};
      owner := map f | f in owner && owner[f].0 != d :: owner[f];
      assert State().spaces == old(State()).spaces - {d};
    }

    /** The first half of `vmm_map_page_in`: the table of directory entry `i`, made if there
        is none; 0 when no frame can be had. */
    method EnsureTable(d: nat, i: nat) returns (t: nat)
      requires Valid() && d in dirs && OwnEntry(kdir, d, i)
      modifies this`mem, this`owner, pmm, pmm.bitmap
      ensures Valid()
      ensures var p, s := old(pmm.State()), old(SpaceOf(mem, kdir, d));
        if i in s.tables then t == s.tables[i].frame && pmm.State() == p && State() == old(State())
        else
          && (pmm.State(), t) == AllocDirect(p)
          && (t == 0 ==> State() == old(State()))
          && (t != 0 ==> State() == old(State()).(spaces := old(State()).spaces[d :=
                           s.(tables := s.tables[i := Mapping(t, false, false)])]))
      ensures t != 0 ==> Present(Get(mem, d, i)) && Get(mem, d, i).frame == t
      ensures t != 0 || i !in old(SpaceOf(mem, kdir, d)).tables
      ensures old(pmm.UsedPages()) <= pmm.UsedPages()
      ensures forall g :: g in owner && g !in old(owner) ==> g !in old(pmm.UsedPages())
      ensures ForeignKept(old(mem), mem, old(pmm.UsedPages()), old(dirs), old(owner))
    {
      hide UsedSet; hide ClearSet; hide SpacesOf; hide TablesOwned; hide OwnersLive; hide HighCopies;
      hide FirstFree; hide Present; hide Decode; hide Get; hide Leaves; hide Put; hide Cleared;
      EntryIs(mem, kdir, dirs, owner, d, i);
      AllocDirectEffect(pmm.State());
      if Present(Get(mem, d, i)) {
        return Get(mem, d, i).frame;
      }
      var page := AllocDirectPage();
      if page == 0 { return 0; }
      t := page / 4096;
      NewTable(t);
      WithTableGet(mem, d, i, t);
      GetCleared(mem, t);
      mem := Cleared(mem, t);
      mem := Put(mem, d, i, Word(t, 1));
      LinkSeparate(old(mem), mem, kdir, dirs, owner, d, i, Word(t, 1));
      AddTableSpaces(old(mem), mem, kdir, dirs, owner, d, i, t);
      SpacesGrow(old(mem), mem, kdir, dirs, d);
      owner := owner[t := (d, i)];
    }

    /** The two stores and the TLB invalidation that end `vmm_map_page_in`. */
    method WriteLeaf(d: nat, x: nat, paddr: nat, flags: bv12)
      requires Valid() && d in dirs && OwnEntry(kdir, d, x / 1024) && Present(Get(mem, d, x / 1024))
      requires d in State().spaces && x !in State().spaces[d].leaves && x / 1024 in State().spaces[d].tables
      modifies this`mem, this`tlb
      ensures Valid()
      ensures State() == Finished(old(State()), d, x, paddr / 4096, flags & 1 != 0, flags & 2 != 0, flags & 4 != 0)
      ensures ForeignKept(old(mem), mem, old(pmm.UsedPages()), old(dirs), old(owner))
    {
      hide TablesOwned; hide OwnersLive; hide HighCopies;
      hide Get; hide Put; hide SpaceOf; hide UsedSet; hide ClearSet;
      hide Present; hide Decode; hide Widen;
      EntryIs(mem, kdir, dirs, owner, d, x / 1024);
      var w := Widen(Get(mem, d, x / 1024), flags);
      var l := Word(paddr / 4096, flags);
      WidenIs(Get(mem, d, x / 1024), flags);
      LeafWord(paddr / 4096, flags);
      WithLeafGet(mem, d, x, w, l);
      GetPut(mem, d, x / 1024, w);
      mem := Put(mem, d, x / 1024, w);
      mem := Put(mem, w.frame, x % 1024, l);
      LeafForeign(old(mem), mem, kdir, dirs, owner, d, x, w, l, pmm.UsedPages());
      hide ForeignKept;
      SetLeafSeparate(old(mem), mem, kdir, dirs, owner, d, x, w, l);
      SetLeafSpaces(old(mem), mem, kdir, dirs, owner, d, x, w, l);
      SpacesGrow(old(mem), mem, kdir, dirs, d);
      tlb := tlb - {x};
      assert !Present(l) ==> SpaceOf(old(mem), kdir, d).leaves - {x} == SpaceOf(old(mem), kdir, d).leaves;
    }

    /** `vmm_map_page_in`; `flags` are the low 12 bits of the flags, all it reads. */
    method MapPageIn(space: nat, vaddr: nat, paddr: nat, flags: bv12) returns (ok: bool)
      requires Valid() && Known(space) && vaddr < 0x1_0000_0000 && paddr < 0x1_0000_0000
      modifies this`mem, this`owner, this`tlb, pmm, pmm.bitmap
      ensures Valid()
      ensures if space == 0 || vaddr % 4096 != 0 || paddr % 4096 != 0
              then !ok && pmm.State() == old(pmm.State()) && State() == old(State())
              else (pmm.State(), State(), ok) == Map(old(pmm.State()), old(State()), space / 4096, vaddr / 4096,
                                                     paddr / 4096, flags & 1 != 0, flags & 2 != 0, flags & 4 != 0)
      ensures ForeignKept(old(mem), mem, old(pmm.UsedPages()), old(dirs), old(owner))
    {
      hide UsedSet; hide ClearSet; hide TablesOwned; hide OwnersLive; hide HighCopies; hide FirstFree;
      hide Present; hide Decode; hide Get; hide SpaceOf;
      if space == 0 || vaddr % 4096 != 0 || paddr % 4096 != 0 { return false; }
      var d, x := space / 4096, vaddr / 4096;
      var i := x / 1024;
      if space != kdir * 4096 && i >= 768 { return false; }
      if PhysToVirt(space) == 0 { return false; }
      LeafIs(mem, kdir, dirs, owner, d, x);
      var t := EnsureTable(d, i);
      hide ForeignKept;
      ghost var m1, used1, owner1 := mem, pmm.UsedPages(), owner;
      if t == 0 { return false; }
      LeafIs(mem, kdir, dirs, owner, d, x);
      if Present(Get(mem, t, x % 1024)) { return false; }
      ghost var p1, v1 := pmm.State(), State();
      assert v1.spaces[d] == SpaceOf(mem, kdir, d) && old(State()).spaces[d] == old(SpaceOf(mem, kdir, d));
      WriteLeaf(d, x, paddr, flags);
      ForeignTwice(old(mem), m1, mem, old(pmm.UsedPages()), used1, dirs, old(owner), owner1);
      MapFinish(old(pmm.State()), old(State()), p1, v1, d, x, paddr / 4096, flags & 1 != 0, flags & 2 != 0, flags & 4 != 0);
      return true;
    }

    /** Frame of the table that `vmm_get_page_table_in` finds; 0 for none. */
    function TableOf(space: nat, vaddr: nat): nat
      reads this`mem
    {
      if space == 0 || PhysToVirt(space) == 0 then 0
      else
        var pde := Get(mem, space / 4096, vaddr / 0x40_0000);
        if !Present(pde) || PhysToVirt(pde.frame * 4096) == 0 then 0 else pde.frame
    }

    /** Zeroes the entry of page `x`; the TLB is not told. */
    method ClearLeaf(d: nat, x: nat)
      requires Valid() && d in dirs && OwnEntry(kdir, d, x / 1024) && Present(Get(mem, d, x / 1024))
      modifies this`mem
      ensures Valid()
      ensures d in State().spaces && d in old(State()).spaces
      ensures var s := old(State()).spaces[d];
        State() == old(State()).(spaces := old(State()).spaces[d := s.(leaves := s.leaves - {x})])
      ensures ForeignKept(old(mem), mem, old(pmm.UsedPages()), old(dirs), old(owner))
    {
      hide TablesOwned; hide OwnersLive; hide HighCopies;
      hide Get; hide Put; hide SpaceOf; hide UsedSet; hide ClearSet; hide Present; hide Decode;
      EntryIs(mem, kdir, dirs, owner, d, x / 1024);
      var w := Get(mem, d, x / 1024);
      NewTable(0);
      GetPut(mem, w.frame, x % 1024, ZERO);
      mem := Put(mem, w.frame, x % 1024, ZERO);
      LeafForeign(old(mem), mem, kdir, dirs, owner, d, x, w, ZERO, pmm.UsedPages());
      hide ForeignKept;
      SetLeafSeparate(old(mem), mem, kdir, dirs, owner, d, x, w, ZERO);
      SetLeafSpaces(old(mem), mem, kdir, dirs, owner, d, x, w, ZERO);
      SpacesGrow(old(mem), mem, kdir, dirs, d);
      ghost var s := SpaceOf(old(mem), kdir, d);
      assert s.tables[x / 1024 := Decode(w)] == s.tables;
    }

    /** `vmm_unmap_page_in`. */
    method UnmapPageIn(space: nat, vaddr: nat) returns (ok: bool)
      requires Valid() && Known(space) && vaddr < 0x1_0000_0000
      modifies this`mem, this`tlb
      ensures Valid()
      ensures if space == 0 || vaddr % 4096 != 0 then !ok && State() == old(State())
              else (State(), ok) == Unmap(old(State()), space / 4096, vaddr / 4096)
      ensures ForeignKept(old(mem), mem, old(pmm.UsedPages()), old(dirs), old(owner))
    {
      hide UsedSet; hide ClearSet; hide TablesOwned; hide OwnersLive; hide HighCopies;
      hide Present; hide Decode; hide Get; hide SpaceOf;
      if space == 0 || vaddr % 4096 != 0 { return false; }
      var d, x := space / 4096, vaddr / 4096;
      if space != kdir * 4096 && vaddr / 0x40_0000 >= 768 { return false; }
      var t := TableOf(space, vaddr);
      if space < 0x100_0000 {
        EntryIs(mem, kdir, dirs, owner, d, x / 1024);
        LeafIs(mem, kdir, dirs, owner, d, x);
      }
      if t == 0 { return false; }
      if !Present(Get(mem, t, x % 1024)) { return false; }
      ClearLeaf(d, x);
      tlb := tlb - {x};
      return true;
    }

    /** `vmm_map_page`: an old translation of the kernel page is replaced. */
    method MapPage(vaddr: nat, paddr: nat, flags: bv12) returns (ok: bool)
      requires Valid() && vaddr < 0x1_0000_0000 && paddr < 0x1_0000_0000
      modifies this`mem, this`owner, this`tlb, pmm, pmm.bitmap
      ensures Valid()
      ensures if vaddr % 4096 != 0 || paddr % 4096 != 0
              then !ok && pmm.State() == old(pmm.State()) && State() == old(State())
              else (pmm.State(), State(), ok) ==
                   Map(old(pmm.State()), Unmap(old(State()), kdir, vaddr / 4096).0, kdir, vaddr / 4096,
                       paddr / 4096, flags & 1 != 0, flags & 2 != 0, flags & 4 != 0)
      ensures ForeignKept(old(mem), mem, old(pmm.UsedPages()), old(dirs), old(owner))
    {
      hide UsedSet; hide ClearSet; hide TablesOwned; hide OwnersLive; hide HighCopies;
      hide Present; hide Decode; hide Get; hide SpaceOf; hide Map;
      if vaddr % 4096 != 0 || paddr % 4096 != 0 { return false; }
      var x := vaddr / 4096;
      EntryIs(mem, kdir, dirs, owner, kdir, x / 1024);
      LeafIs(mem, kdir, dirs, owner, kdir, x);
      if TableOf(kdir * 4096, vaddr) != 0 {
        ClearLeaf(kdir, x);
      }
      ReplaceLeaf(pmm.State(), old(State()), State(), x, paddr / 4096, flags & 1 != 0, flags & 2 != 0, flags & 4 != 0);
      ghost var m1 := mem;
      ForeignSame(old(mem), pmm.UsedPages(), dirs, owner);
      hide ForeignKept;
      ok := MapPageIn(kdir * 4096, vaddr, paddr, flags);
      ForeignTwice(old(mem), m1, mem, old(pmm.UsedPages()), old(pmm.UsedPages()), dirs, old(owner), old(owner));
    }

    /** `vmm_get_paddr_in`. */
    method GetPaddrIn(space: nat, vaddr: nat) returns (ok: bool, paddr: nat)
      requires Valid() && Known(space) && vaddr < 0x1_0000_0000
      ensures ok <==> space != 0 && Lookup(State(), space / 4096, vaddr / 4096).Some?
      ensures ok ==> paddr == Lookup(State(), space / 4096, vaddr / 4096).value.frame * 4096 + vaddr % 4096
    {
      hide UsedSet; hide ClearSet; hide TablesOwned; hide OwnersLive; hide HighCopies;
      hide Present; hide Decode; hide Get; hide SpaceOf;
      var t := TableOf(space, vaddr);
      ghost var d, x := space / 4096, vaddr / 4096;
      if d in dirs {
        WalkIsLookup(mem, kdir, dirs, owner, State(), d, x);
        DecodeFrame(Leaf(mem, d, x));
        TableReached(mem, kdir, dirs, owner, d, x / 1024);
      }
      if t == 0 || !Present(Get(mem, t, vaddr / 4096 % 1024)) { return false, 0; }
      return true, Get(mem, t, vaddr / 4096 % 1024).frame * 4096 + vaddr % 4096;
    }

    /** The inner loop of `vmm_init`: frame `t` maps the `i`-th 4 MiB. */
    method FillTable(t: nat, i: nat)
      requires Shape(mem) && t < 4096
      modifies this`mem
      ensures Shape(mem)
      ensures forall g: nat, j: nat :: Get(mem, g, j) ==
                if g != t then old(Get(mem, g, j)) else if j < 1024 then Word(i * 1024 + j, 3) else ZERO
    {
      hide Get; hide Put; hide Cleared;
      ghost var m := mem;
      GetCleared(mem, t);
      mem := Cleared(mem, t);
      for k := 0 to 1024
        invariant Shape(mem)
        invariant forall g: nat, j: nat ::
          Get(mem, g, j) == if g != t then Get(m, g, j) else if j < k then Word(i * 1024 + j, 3) else ZERO
      {
        GetPut(mem, t, k, Word(i * 1024 + k, 3));
        mem := Put(mem, t, k, Word(i * 1024 + k, 3));
      }
    }

    /** One round of the outer loop of `vmm_init`; 0 when no frame is left. */
    method AddKernelTable(ghost p0: Pmm, i: nat) returns (t: nat)
      requires pmm.Valid() && i < 256 && KernelSoFar(mem, kdir, owner, i)
      requires kdir in p0.used && TablesTaken(p0, pmm.State(), owner, i)
      modifies this`mem, this`owner, pmm, pmm.bitmap
      ensures pmm.Valid() && pmm.bitmap == old(pmm.bitmap)
      ensures t == 0 ==> |FreeDirect(p0)| == i
      ensures t != 0 ==> KernelSoFar(mem, kdir, owner, i + 1) && TablesTaken(p0, pmm.State(), owner, i + 1)
    {
      hide UsedSet; hide ClearSet; hide KernelSoFar; hide FreeDirect; hide TablesTaken; hide Alloc;
      ghost var p := pmm.State();
      TakenAll(p0, p, owner, i);
      AllocCounts(p);
      var page := pmm.AllocPage();
      if page == 0 { return 0; }
      if PhysToVirt(page) == 0 { return 0; }
      t := page / 4096;
      FreshTable(p0, p, owner, i, kdir, t);
      LinkTable(t, i);
      TookTable(p0, p, owner, i, t, (kdir, 768 + i));
      owner := owner[t := (kdir, 768 + i)];
    }

    /** Fills frame `t` and hangs it into the kernel's directory. */
    method LinkTable(t: nat, i: nat)
      requires i < 256 && KernelSoFar(mem, kdir, owner, i) && 0 < t < 4096 && t != kdir && t !in owner
      modifies this`mem
      ensures KernelSoFar(mem, kdir, owner[t := (kdir, 768 + i)], i + 1)
    {
      hide Get; hide Put; hide Present; hide Separate; hide TablesOwned;
      KernelShape(mem, kdir, owner, i);
      FillTable(t, i);
      ghost var m1 := mem;
      GetPut(mem, kdir, 768 + i, Word(t, 3));
      mem := Put(mem, kdir, 768 + i, Word(t, 3));
      LinkKernel(old(mem), m1, mem, kdir, owner, i, t);
    }

    /** The outer loop of `vmm_init`. */
    method BuildDirectMap(n: nat) returns (ok: bool)
      requires pmm.Valid() && n <= 256 && KernelSoFar(mem, kdir, map[], 0) && owner == map[] && kdir in pmm.State().used
      modifies this`mem, this`owner, pmm, pmm.bitmap
      ensures pmm.Valid() && pmm.bitmap == old(pmm.bitmap)
      ensures ok <==> |FreeDirect(old(pmm.State()))| >= n
      ensures ok ==> KernelSoFar(mem, kdir, owner, n) && TablesTaken(old(pmm.State()), pmm.State(), owner, n)
    {
      hide *;
      ghost var p0 := pmm.State();
      NothingTaken(p0, owner);
      for i := 0 to n
        invariant pmm.Valid() && pmm.bitmap == old(pmm.bitmap)
        invariant KernelSoFar(mem, kdir, owner, i) && TablesTaken(p0, pmm.State(), owner, i)
      {
        var t := AddKernelTable(p0, i);
        if t == 0 { return false; }
      }
      TakenCount(p0, pmm.State(), owner, n);
      return true;
    }

    /** `vmm_init`. False is a panic: the limit is 0 or no multiple of 4 MiB, or a frame is
        missing.  Otherwise exactly the pages of the direct map are translated, and exactly the
        frames of one directory and its tables have been taken. */
    method Init(limit: nat) returns (ok: bool)
      requires pmm.Valid() && Shape(mem) && limit <= 0x4000_0000
      modifies this, pmm, pmm.bitmap
      ensures ok <==> limit >= 1 && limit % 0x40_0000 == 0 && |FreeDirect(old(pmm.State()))| > limit / 0x40_0000
      ensures ok ==> Valid() && dirs == {kdir} && cr3 == kdir && tlb == map[] && !badDestroy
      ensures ok ==> OnlyDirect(State(), kdir, limit / 4096)
      ensures ok ==> BootSpace(State().spaces[kdir], limit / 4096)
      ensures ok ==> |owner| == limit / 0x40_0000 && {kdir} + owner.Keys <= FreeDirect(old(pmm.State()))
      ensures ok ==> pmm.State() == old(pmm.State()).(used := old(pmm.State()).used + {kdir} + owner.Keys)
    {
      hide UsedSet; hide ClearSet; hide Get; hide Present; hide KernelSoFar; hide Separate; hide FreeDirect;
      hide Alloc; hide OnlyDirect; hide BootSpace; hide SpaceOf;
      if limit < 1 || limit % 0x40_0000 != 0 { return false; }
      AllocCounts(pmm.State());
      var page := pmm.AllocPage();
      if page == 0 { return false; }
      if PhysToVirt(page) == 0 { return false; }
      kdir := page / 4096;
      TakeOne(old(pmm.State()), kdir);
      GetCleared(mem, kdir);
      mem := Cleared(mem, kdir);
      dirs, owner, tlb, badDestroy := {kdir}, map[], map[], false;
      KernelEmpty(mem, kdir);
      ok := BuildDirectMap(limit / 0x40_0000);
      if ok {
        cr3 := kdir;
        KernelDone(mem, kdir, owner, limit / 0x40_0000, State());
        TakenAll(old(pmm.State()).(used := old(pmm.State()).used + {kdir}), pmm.State(), owner, limit / 0x40_0000);
        FewerFree(old(pmm.State()), old(pmm.State()).(used := old(pmm.State()).used + {kdir}));
      }
    }
  }

  /** What `vmm_init` leaves in the kernel's directory, entry by entry. */
  ghost predicate BootSpace(s: Space, pages: nat)
  {
    && (forall x :: x in s.leaves <==> 786432 <= x < 786432 + pages)
    && (forall x :: x in s.leaves ==> s.leaves[x] == Mapping(x - 786432, true, false))
    && (forall i :: i in s.tables <==> 768 <= i < 768 + pages / 1024)
    && (forall i :: i in s.tables ==> s.tables[i].writable && !s.tables[i].user)
  }

  /** Exactly the first `n` pages of the kernel half are translated, each to its own frame. */
  ghost predicate OnlyDirect(v: Vm, d: nat, n: nat)
    requires v.kdir in v.spaces
  {
    forall x: nat :: x < 1048576 ==>
      Lookup(v, d, x) == if 786432 <= x < 786432 + n then Some(Mapping(x - 786432, true, false)) else None
  }

  /** The first `n` tables of the direct map are in place, and nothing else. */
  ghost predicate KernelSoFar(m: Memory, kdir: nat, owner: map<nat, (nat, nat)>, n: nat)
  {
    && Separate(m, kdir, {kdir}, owner)
    && (forall i: nat :: i < 1024 ==> (Present(Get(m, kdir, i)) <==> 768 <= i < 768 + n))
    && (forall i: nat :: 768 <= i < 768 + n && i < 1024 ==> Get(m, kdir, i).flags == 3)
    && (forall x: nat :: 786432 <= x < 786432 + 1024 * n ==> Leaf(m, kdir, x) == Word(x - 786432, 3))
  }

  lemma KernelEmpty(m: Memory, kdir: nat)
    requires Shape(m) && 0 < kdir < 4096 && forall j: nat :: Get(m, kdir, j) == ZERO
    ensures KernelSoFar(m, kdir, map[], 0)
  {
    hide Get; hide Present;
    NewTable(0);
  }

  lemma KernelDone(m: Memory, kdir: nat, owner: map<nat, (nat, nat)>, n: nat, v: Vm)
    requires KernelSoFar(m, kdir, owner, n) && n <= 256
    requires v.kdir == kdir && v.spaces == SpacesOf(m, kdir, {kdir})
    ensures Separate(m, kdir, {kdir}, owner) && OnlyDirect(v, kdir, 1024 * n)
    ensures BootSpace(v.spaces[kdir], 1024 * n)
  {
    KernelBootSpace(m, kdir, owner, n);
    hide Get; hide Separate; hide Lookup; hide SpaceOf; hide Present;
    forall x: nat | x < 1048576
      ensures Lookup(v, kdir, x) == if 786432 <= x < 786432 + 1024 * n then Some(Mapping(x - 786432, true, false)) else None {
      WalkIsLookup(m, kdir, {kdir}, owner, v, kdir, x);
      var k := x / 1024;
      if x >= 786432 { NewTable(x - 786432); }
      assert Present(Get(m, kdir, k)) <==> 768 <= k < 768 + n;
    }
  }

  lemma KernelBootSpace(m: Memory, kdir: nat, owner: map<nat, (nat, nat)>, n: nat)
    requires KernelSoFar(m, kdir, owner, n) && n <= 256
    ensures BootSpace(SpaceOf(m, kdir, kdir), 1024 * n)
  {
    hide Get; hide Separate; hide Present; hide Decode; hide Leaf;
    var s := SpaceOf(m, kdir, kdir);
    forall x: nat | x < 1048576
      ensures x in s.leaves <==> 786432 <= x < 786432 + 1024 * n
      ensures x in s.leaves ==> s.leaves[x] == Mapping(x - 786432, true, false) {
      var k := x / 1024;
      if x >= 786432 { NewTable(x - 786432); }
      assert Present(Get(m, kdir, k)) <==> 768 <= k < 768 + n;
    }
    forall i: nat | i in s.tables ensures s.tables[i].writable && !s.tables[i].user {
      NewTable(Get(m, kdir, i).frame);
      assert Get(m, kdir, i) == Word(Get(m, kdir, i).frame, 3);
    }
  }

  /** `i` tables have been taken from the free frames of `p0`, and nothing else. */
  ghost predicate TablesTaken(p0: Pmm, p: Pmm, owner: map<nat, (nat, nat)>, i: nat)
  {
    && p == p0.(used := p0.used + owner.Keys) && |owner| == i && owner.Keys <= FreeDirect(p0)
    && |FreeDirect(p)| == |FreeDirect(p0)| - i
  }

  lemma NothingTaken(p: Pmm, owner: map<nat, (nat, nat)>)
    requires owner == map[]
    ensures TablesTaken(p, p, owner, 0)
  {
    assert p.used + owner.Keys == p.used;
  }

  lemma TookTable(p0: Pmm, p: Pmm, owner: map<nat, (nat, nat)>, i: nat, t: nat, e: (nat, nat))
    requires TablesTaken(p0, p, owner, i) && t in FreeDirect(p) && t !in owner
    ensures TablesTaken(p0, p.(used := p.used + {t}), owner[t := e], i + 1)
  {
    FewerFree(p0, p);
    TakeOne(p, t);
    hide FreeDirect;
    OneMoreKey(owner, t, e);
    SameUnion(p0.used, owner.Keys, t);
  }

  lemma OneMoreKey(owner: map<nat, (nat, nat)>, t: nat, e: (nat, nat))
    requires t !in owner
    ensures owner[t := e].Keys == owner.Keys + {t} && |owner[t := e]| == |owner| + 1
  {
  }

  lemma SameUnion(a: set<nat>, b: set<nat>, t: nat)
    ensures a + b + {t} == a + (b + {t})
  {
  }

  /** A frame still free is neither the directory nor one of the tables. */
  lemma FreshTable(p0: Pmm, p: Pmm, owner: map<nat, (nat, nat)>, i: nat, kdir: nat, t: nat)
    requires TablesTaken(p0, p, owner, i) && kdir in p0.used && t in FreeDirect(p)
    ensures 0 < t < 4096 && t != kdir && t !in owner
  {
  }

  lemma TakenCount(p0: Pmm, p: Pmm, owner: map<nat, (nat, nat)>, i: nat)
    requires TablesTaken(p0, p, owner, i)
    ensures |FreeDirect(p0)| >= i
  {
    hide FreeDirect;
  }

  /** Enough frames there were exactly when the last table found one. */
  lemma TakenAll(p0: Pmm, p: Pmm, owner: map<nat, (nat, nat)>, i: nat)
    requires TablesTaken(p0, p, owner, i)
    ensures p == p0.(used := p0.used + owner.Keys) && |owner| == i && owner.Keys <= FreeDirect(p0)
    ensures |FreeDirect(p0)| >= i && (FreeDirect(p) == {} ==> |FreeDirect(p0)| == i)
    ensures p0.used <= p.used && owner.Keys <= p.used
  {
    hide FreeDirect;
  }

  lemma KernelShape(m: Memory, kdir: nat, owner: map<nat, (nat, nat)>, n: nat)
    requires KernelSoFar(m, kdir, owner, n)
    ensures Shape(m) && 0 < kdir < 4096
  {
  }

  lemma LinkKernel(m: Memory, m1: Memory, m2: Memory, kdir: nat, owner: map<nat, (nat, nat)>, i: nat, t: nat)
    requires KernelSoFar(m, kdir, owner, i) && i < 256 && 0 < t < 4096 && t != kdir && t !in owner && Shape(m2)
    requires forall g: nat, j: nat :: Get(m1, g, j) ==
               if g != t then Get(m, g, j) else if j < 1024 then Word(i * 1024 + j, 3) else ZERO
    requires forall g: nat, j: nat :: Get(m2, g, j) ==
               if g == kdir && j == 768 + i then Word(t, 3) else Get(m1, g, j)
    ensures KernelSoFar(m2, kdir, owner[t := (kdir, 768 + i)], i + 1)
  {
    hide Get; hide Present;
    NewTable(t);
    LinkSeparate(m, m2, kdir, {kdir}, owner, kdir, 768 + i, Word(t, 3));
    forall x: nat | 786432 <= x < 786432 + 1024 * (i + 1) ensures Leaf(m2, kdir, x) == Word(x - 786432, 3) {
      var k := x / 1024;
      assert x == 1024 * k + x % 1024;
      var f := Get(m2, kdir, k).frame;
      if k < 768 + i {
        assert Present(Get(m, kdir, k)) && OwnEntry(kdir, kdir, k) && kdir in {kdir};
        assert Get(m2, kdir, k) == Get(m, kdir, k) && f in owner && f != kdir;
        assert Get(m2, f, x % 1024) == Get(m, f, x % 1024);
        assert Leaf(m, kdir, x) == Word(x - 786432, 3);
      } else {
        assert k == 768 + i && f == t && Get(m2, t, x % 1024) == Get(m1, t, x % 1024);
      }
    }
  }

  /** Clearing the entry first makes the second step of `vmm_map_page` a `Map` of a free page. */
  lemma ReplaceLeaf(p: Pmm, v: Vm, v1: Vm, x: nat, f: nat, present: bool, w: bool, u: bool)
    requires v.kdir in v.spaces && (x in v.spaces[v.kdir].leaves ==> x / 1024 in v.spaces[v.kdir].tables)
    requires var s := v.spaces[v.kdir];
      if x / 1024 in s.tables then v1 == v.(spaces := v.spaces[v.kdir := s.(leaves := s.leaves - {x})]) else v1 == v
    ensures Map(p, v1, v.kdir, x, f, present, w, u) == Map(p, Unmap(v, v.kdir, x).0, v.kdir, x, f, present, w, u)
  {
    hide AllocDirect;
    var s := v.spaces[v.kdir];
    if x !in s.leaves {
      assert s.leaves - {x} == s.leaves;
      assert v.spaces[v.kdir := s] == v.spaces;
    } else {
      assert v.tlb - {x} - {x} == v.tlb - {x};
    }
  }

  /** Tables reached through any directory lie in the direct map. */
  lemma TableReached(m: Memory, kdir: nat, dirs: set<nat>, owner: map<nat, (nat, nat)>, d: nat, i: nat)
    requires Separate(m, kdir, dirs, owner) && d in dirs && i < 1024
    ensures Present(Get(m, d, i)) ==> 0 < Get(m, d, i).frame < 4096
  {
    hide Present; hide Get;
    assert OwnEntry(kdir, kdir, i) && (i < 768 ==> OwnEntry(kdir, d, i));
  }

  ghost function Finished(v: Vm, d: nat, x: nat, f: nat, present: bool, w: bool, u: bool): Vm
    requires d in v.spaces && x / 1024 in v.spaces[d].tables
  {
    var s := v.spaces[d];
    var t := s.tables[x / 1024];
    v.(spaces := v.spaces[d := Space(s.tables[x / 1024 := t.(writable := t.writable || w, user := t.user || u)],
                                     if present then s.leaves[x := Mapping(f, w, u)] else s.leaves)],
       tlb := v.tlb - {x})
  }

  /** Making the table first and writing the leaf then is `Map`. */
  lemma MapFinish(p: Pmm, v: Vm, p1: Pmm, v1: Vm, d: nat, x: nat, f: nat, present: bool, w: bool, u: bool)
    requires d in v.spaces && Own(v, d, x / 1024) && x !in v.spaces[d].leaves
    requires var i, s := x / 1024, v.spaces[d];
      if i in s.tables then p1 == p && v1 == v
      else AllocDirect(p).0 == p1 && AllocDirect(p).1 != 0
           && v1 == v.(spaces := v.spaces[d := s.(tables := s.tables[i := Mapping(AllocDirect(p).1, false, false)])])
    ensures Map(p, v, d, x, f, present, w, u) == (p1, Finished(v1, d, x, f, present, w, u), true)
  {
    hide AllocDirect;
    var i, s := x / 1024, v.spaces[d];
    if i !in s.tables {
      var t := Mapping(AllocDirect(p).1, w, u);
      assert v1.spaces[d].tables[i := t] == s.tables[i := t];
      var s' := Finished(v1, d, x, f, present, w, u).spaces[d];
      assert v1.spaces[d := s'] == v.spaces[d := s'];
    }
  }

  lemma LeafWord(f: nat, flags: bv12)
    ensures Present(Word(f, flags)) <==> flags & 1 != 0
    ensures Decode(Word(f, flags)) == Mapping(f, flags & 2 != 0, flags & 4 != 0)
  {
  }

  lemma LeafIs(m: Memory, kdir: nat, dirs: set<nat>, owner: map<nat, (nat, nat)>, d: nat, x: nat)
    requires Separate(m, kdir, dirs, owner) && d in dirs && OwnEntry(kdir, d, x / 1024)
    ensures x / 1024 in SpaceOf(m, kdir, d).tables <==> Present(Get(m, d, x / 1024))
    ensures x in SpaceOf(m, kdir, d).leaves <==> Present(Get(m, d, x / 1024)) && Present(Leaf(m, d, x))
    ensures x in SpaceOf(m, kdir, d).leaves ==> SpaceOf(m, kdir, d).leaves[x].frame == Leaf(m, d, x).frame
  {
    hide Present; hide Get;
  }

  lemma DecodeFrame(w: Word)
    ensures Decode(w).frame == w.frame
  {
  }

  lemma EntryIs(m: Memory, kdir: nat, dirs: set<nat>, owner: map<nat, (nat, nat)>, d: nat, i: nat)
    requires Separate(m, kdir, dirs, owner) && d in dirs && OwnEntry(kdir, d, i)
    ensures i in SpaceOf(m, kdir, d).tables <==> Present(Get(m, d, i))
    ensures Present(Get(m, d, i)) ==>
              SpaceOf(m, kdir, d).tables[i] == Decode(Get(m, d, i)) && Decode(Get(m, d, i)).frame == Get(m, d, i).frame
              && 0 < Get(m, d, i).frame < 4096 && Get(m, d, i).frame !in dirs
  {
    hide Present; hide Get;
  }

  lemma KernelLive(m: Memory, kdir: nat, dirs: set<nat>, owner: map<nat, (nat, nat)>)
    requires Separate(m, kdir, dirs, owner)
    ensures Shape(m) && kdir in dirs && SpacesOf(m, kdir, dirs).Keys == dirs
    ensures SpacesOf(m, kdir, dirs)[kdir].tables == Tables(m, kdir)
  {
  }
}
