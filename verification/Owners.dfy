/**
 * Frame ownership.  Every allocated frame is owned by exactly one thing, read off the data
 * structures themselves: no owner field exists anywhere.
 */
module Owners {
  import opened Common
  import opened PmmSpec
  import opened VmSpec

  /** Frames outside the page tables: set aside at boot, given to the heap, or held by kernel
      code between allocating a frame and mapping it (or between unmapping and freeing). */
  datatype Claims = Claims(reserved: set<nat>, heap: set<nat>, held: set<nat>)

  datatype Owner =
    | Reserved(frame: nat)
    | HeapPage(frame: nat)
    | Held(frame: nat)
    | Directory(dir: nat)
    | Table(dir: nat, index: nat)
    | UserLeaf(dir: nat, vpn: nat)

  /** The frame an owner owns in this state, if any. */
  function FrameOf(c: Claims, v: Vm, o: Owner): Option<nat>
  {
    match o
    case Reserved(f) => if f in c.reserved then Some(f) else None
    case HeapPage(f) => if f in c.heap then Some(f) else None
    case Held(f) => if f in c.held then Some(f) else None
    case Directory(d) => if d in v.spaces then Some(d) else None
    case Table(d, i) =>
      if d in v.spaces && i in v.spaces[d].tables && Own(v, d, i)
      then Some(v.spaces[d].tables[i].frame) else None
    case UserLeaf(d, x) =>
      if d in v.spaces && d != v.kdir && x in v.spaces[d].leaves
      then Some(v.spaces[d].leaves[x].frame) else None
  }

  predicate InPool(p: Pmm, f: nat) { 1 <= f < p.max && f < DIRECT_PAGES }

  /** Allocated frames and owners correspond one to one. */
  ghost predicate Partition(p: Pmm, c: Claims, v: Vm)
  {
    && (forall o :: FrameOf(c, v, o).Some? ==> FrameOf(c, v, o).value in p.used)
    && (forall o :: FrameOf(c, v, o).Some? && !o.Reserved? ==> InPool(p, FrameOf(c, v, o).value))
    && (forall f :: f in p.used ==> exists o :: FrameOf(c, v, o) == Some(f))
    && (forall o1, o2 :: FrameOf(c, v, o1).Some? && FrameOf(c, v, o1) == FrameOf(c, v, o2) ==> o1 == o2)
    && !p.doubleFree
  }

  /** The statement a reader wants: no sharing and no leak. */
  lemma OneOwnerEach(p: Pmm, c: Claims, v: Vm, f: nat)
    requires Partition(p, c, v)
    ensures f in p.used <==> exists o :: FrameOf(c, v, o) == Some(f)
    ensures forall o1, o2 :: FrameOf(c, v, o1) == Some(f) && FrameOf(c, v, o2) == Some(f) ==> o1 == o2
  {
  }

  // ---------------------------------------------------------------- generic changes

  /** One owner `o0` gains the fresh frame `f0`. */
  lemma Gain(p: Pmm, c: Claims, v: Vm, p': Pmm, c': Claims, v': Vm, o0: Owner, f0: nat)
    requires Partition(p, c, v)
    requires f0 !in p.used && InPool(p, f0) && p' == p.(used := p.used + {f0})
    requires FrameOf(c, v, o0) == None
    requires forall o :: FrameOf(c', v', o) == if o == o0 then Some(f0) else FrameOf(c, v, o)
    ensures Partition(p', c', v')
  {
    forall f | f in p'.used ensures exists o :: FrameOf(c', v', o) == Some(f) {
      if f == f0 {
        assert FrameOf(c', v', o0) == Some(f);
      } else {
        var o :| FrameOf(c, v, o) == Some(f);
        assert FrameOf(c', v', o) == Some(f);
      }
    }
  }

  /** The owners in `gone` lose their frames, and exactly those frames are freed. */
  lemma Lose(p: Pmm, c: Claims, v: Vm, p': Pmm, c': Claims, v': Vm, gone: set<Owner>, frames: set<nat>)
    requires Partition(p, c, v)
    requires p' == p.(used := p.used - frames)
    requires forall f :: f in frames <==> exists o :: o in gone && FrameOf(c, v, o) == Some(f)
    requires forall o :: FrameOf(c', v', o) == if o in gone then None else FrameOf(c, v, o)
    ensures Partition(p', c', v')
  {
    forall f | f in p'.used ensures exists o :: FrameOf(c', v', o) == Some(f) {
      var o :| FrameOf(c, v, o) == Some(f);
      assert o !in gone;
      assert FrameOf(c', v', o) == Some(f);
    }
  }

  /** A frame changes hands from `o1` to `o2`. */
  lemma Move(p: Pmm, c: Claims, v: Vm, c': Claims, v': Vm, o1: Owner, o2: Owner)
    requires Partition(p, c, v)
    requires o1 != o2 && FrameOf(c, v, o1).Some? && FrameOf(c, v, o2) == None
    requires !o1.Reserved? && !o2.Reserved?
    requires forall o :: FrameOf(c', v', o) ==
               if o == o1 then None else if o == o2 then FrameOf(c, v, o1) else FrameOf(c, v, o)
    ensures Partition(p, c', v')
  {
    forall f | f in p.used ensures exists o :: FrameOf(c', v', o) == Some(f) {
      var o :| FrameOf(c, v, o) == Some(f);
      assert FrameOf(c', v', if o == o1 then o2 else o) == Some(f);
    }
  }

  // ---------------------------------------------------------------- held and heap frames

  lemma HoldFresh(p: Pmm, c: Claims, v: Vm)
    requires Partition(p, c, v)
    ensures var (p', f) := AllocDirect(p);
      f != 0 ==> Partition(p', c.(held := c.held + {f}), v) && f !in c.held && f !in p.used && InPool(p, f)
  {
    AllocDirectEffect(p);
    var (p', f) := AllocDirect(p);
    if f != 0 {
      assert f in c.held ==> FrameOf(c, v, Held(f)).Some?;
      Gain(p, c, v, p', c.(held := c.held + {f}), v, Held(f), f);
    }
  }

  lemma FreeHeld(p: Pmm, c: Claims, v: Vm, f: nat)
    requires Partition(p, c, v) && f in c.held
    ensures Free(p, f) == p.(used := p.used - {f})
    ensures Partition(Free(p, f), c.(held := c.held - {f}), v)
  {
    assert FrameOf(c, v, Held(f)) == Some(f);
    Lose(p, c, v, Free(p, f), c.(held := c.held - {f}), v, {Held(f)}, {f});
  }

  lemma GrowHeap(p: Pmm, c: Claims, v: Vm)
    requires Partition(p, c, v)
    ensures var (p', f) := AllocDirect(p);
      f != 0 ==> Partition(p', c.(heap := c.heap + {f}), v) && f !in c.heap && f !in p.used && InPool(p, f)
  {
    AllocDirectEffect(p);
    var (p', f) := AllocDirect(p);
    if f != 0 {
      assert f in c.heap ==> FrameOf(c, v, HeapPage(f)).Some?;
      Gain(p, c, v, p', c.(heap := c.heap + {f}), v, HeapPage(f), f);
    }
  }

  // ---------------------------------------------------------------- page tables

  lemma DirectoriesUsed(p: Pmm, c: Claims, v: Vm)
    requires Partition(p, c, v)
    ensures forall d :: d in v.spaces ==> d in p.used && InPool(p, d)
  {
    forall d | d in v.spaces ensures d in p.used && InPool(p, d) {
      assert FrameOf(c, v, Directory(d)) == Some(d);
    }
  }

  lemma AddSpaceFrames(c: Claims, v: Vm, d: nat, o: Owner)
    requires v.kdir in v.spaces && d !in v.spaces
    ensures FrameOf(c, v.(spaces := v.spaces[d := Space(HighTables(v), map[])]), o)
            == if o == Directory(d) then Some(d) else FrameOf(c, v, o)
  {
  }

  lemma CreatePartition(p: Pmm, c: Claims, v: Vm)
    requires v.kdir in v.spaces && Partition(p, c, v)
    ensures var (p', v', d) := Create(p, v); Partition(p', c, v')
  {
    AllocDirectEffect(p);
    var (p', v', d) := Create(p, v);
    if d != 0 {
      assert FrameOf(c, v, Directory(d)).Some? <==> d in v.spaces;
      forall o ensures FrameOf(c, v', o) == if o == Directory(d) then Some(d) else FrameOf(c, v, o) {
        AddSpaceFrames(c, v, d, o);
      }
      Gain(p, c, v, p', c, v', Directory(d), d);
    }
  }

  lemma AddTableFrames(c: Claims, v: Vm, d: nat, i: nat, t: Mapping, o: Owner)
    requires d in v.spaces && Own(v, d, i)
    ensures FrameOf(c, v.(spaces := v.spaces[d := v.spaces[d].(tables := v.spaces[d].tables[i := t])]), o)
            == if o == Table(d, i) then Some(t.frame) else FrameOf(c, v, o)
  {
  }

  lemma AddLeafFrames(c: Claims, v: Vm, d: nat, x: nat, l: Mapping, tlb: map<nat, Mapping>, o: Owner)
    requires d in v.spaces && d != v.kdir && l.frame in c.held
    ensures FrameOf(c.(held := c.held - {l.frame}),
                    v.(spaces := v.spaces[d := v.spaces[d].(leaves := v.spaces[d].leaves[x := l])], tlb := tlb), o)
            == if o == Held(l.frame) then None
               else if o == UserLeaf(d, x) then Some(l.frame) else FrameOf(c, v, o)
  {
  }

  /** Mapping a held frame into a user space hands it to that page; a table may be added. */
  lemma MapPartition(p: Pmm, c: Claims, v: Vm, d: nat, x: nat, f: nat, w: bool, u: bool)
    requires Partition(p, c, v) && f in c.held && d != v.kdir
    ensures var (p', v', ok) := Map(p, v, d, x, f, true, w, u);
      Partition(p', if ok then c.(held := c.held - {f}) else c, v')
  {
    var (p', v', ok) := Map(p, v, d, x, f, true, w, u);
    AllocDirectEffect(p);
    if ok {
      var i := x / ENTRIES;
      var s := v.spaces[d];
      var t := v'.spaces[d].tables[i];
      var v1 := v.(spaces := v.spaces[d := s.(tables := s.tables[i := t])]);
      forall o ensures FrameOf(c, v1, o) == if o == Table(d, i) then Some(t.frame) else FrameOf(c, v, o) {
        AddTableFrames(c, v, d, i, t, o);
      }
      assert Partition(p', c, v1) by {
        if i in s.tables {
          assert FrameOf(c, v, Table(d, i)) == Some(t.frame);
          assert forall o :: FrameOf(c, v1, o) == FrameOf(c, v, o);
          SameFrames(p, c, v, c, v1);
        } else {
          assert FrameOf(c, v, Table(d, i)) == None;
          Gain(p, c, v, p', c, v1, Table(d, i), t.frame);
        }
      }
      LeafPartition(p', c, v1, d, x, Mapping(f, w, u), v'.tlb);
      assert v' == v1.(spaces := v1.spaces[d := v1.spaces[d].(leaves := v1.spaces[d].leaves[x := Mapping(f, w, u)])], tlb := v'.tlb);
    }
  }

  lemma SameFrames(p: Pmm, c: Claims, v: Vm, c': Claims, v': Vm)
    requires Partition(p, c, v) && forall o :: FrameOf(c', v', o) == FrameOf(c, v, o)
    ensures Partition(p, c', v')
  {
    forall f | f in p.used ensures exists o :: FrameOf(c', v', o) == Some(f) {
      var o :| FrameOf(c, v, o) == Some(f);
      assert FrameOf(c', v', o) == Some(f);
    }
  }

  lemma LeafPartition(p: Pmm, c: Claims, v: Vm, d: nat, x: nat, l: Mapping, tlb: map<nat, Mapping>)
    requires Partition(p, c, v) && l.frame in c.held
    requires d in v.spaces && d != v.kdir && x !in v.spaces[d].leaves
    ensures Partition(p, c.(held := c.held - {l.frame}),
                      v.(spaces := v.spaces[d := v.spaces[d].(leaves := v.spaces[d].leaves[x := l])], tlb := tlb))
  {
    var c' := c.(held := c.held - {l.frame});
    var v' := v.(spaces := v.spaces[d := v.spaces[d].(leaves := v.spaces[d].leaves[x := l])], tlb := tlb);
    assert FrameOf(c, v, Held(l.frame)) == Some(l.frame);
    assert FrameOf(c, v, UserLeaf(d, x)) == None;
    forall o ensures FrameOf(c', v', o) == if o == Held(l.frame) then None
                       else if o == UserLeaf(d, x) then Some(l.frame) else FrameOf(c, v, o) {
      AddLeafFrames(c, v, d, x, l, tlb, o);
    }
    Move(p, c, v, c', v', Held(l.frame), UserLeaf(d, x));
  }

  /** Mapping in the kernel directory takes no frame but a page table. */
  lemma KernelMapPartition(p: Pmm, c: Claims, v: Vm, x: nat, f: nat, present: bool, w: bool, u: bool)
    requires VmInv(v) && Partition(p, c, v) && x < VPAGES
    ensures var (p', v', ok) := Map(p, v, v.kdir, x, f, present, w, u); Partition(p', c, v')
  {
    hide AllocDirect; hide SpaceOk; hide TlbOk;
    var (p', v', ok) := Map(p, v, v.kdir, x, f, present, w, u);
    AllocDirectEffect(p);
    if ok {
      var i := x / ENTRIES;
      var t := v'.spaces[v.kdir].tables[i];
      forall o ensures FrameOf(c, v', o) == if o == Table(v.kdir, i) then Some(t.frame) else FrameOf(c, v, o) {
        KernelTableFrames(c, v, v', i, o);
      }
      hide Map; hide FrameOf;
      if i in v.spaces[v.kdir].tables {
        SameFrames(p, c, v, c, v');
      } else {
        Gain(p, c, v, p', c, v', Table(v.kdir, i), t.frame);
      }
    }
  }

  /** Unmapping in the kernel directory takes and gives no frame. */
  lemma KernelUnmapPartition(p: Pmm, c: Claims, v: Vm, x: nat)
    requires Partition(p, c, v)
    ensures Partition(p, c, Unmap(v, v.kdir, x).0)
  {
    var v' := Unmap(v, v.kdir, x).0;
    assert forall o :: FrameOf(c, v', o) == FrameOf(c, v, o);
    hide FrameOf; hide Unmap;
    SameFrames(p, c, v, c, v');
  }

  lemma KernelTableFrames(c: Claims, v: Vm, v': Vm, i: nat, o: Owner)
    requires v.kdir in v.spaces && v.kdir in v'.spaces && v'.kdir == v.kdir
    requires v'.spaces == v.spaces[v.kdir := v'.spaces[v.kdir]]
    requires i in v'.spaces[v.kdir].tables
    requires v'.spaces[v.kdir].tables == v.spaces[v.kdir].tables[i := v'.spaces[v.kdir].tables[i]]
    ensures FrameOf(c, v', o) == if o == Table(v.kdir, i) then Some(v'.spaces[v.kdir].tables[i].frame) else FrameOf(c, v, o)
  {
  }

  /** Unmapping a user page hands its frame back to the caller. */
  lemma UnmapPartition(p: Pmm, c: Claims, v: Vm, d: nat, x: nat)
    requires VmInv(v) && Partition(p, c, v) && d != v.kdir
    ensures var (v', ok) := Unmap(v, d, x);
      if ok then
        && d in v.spaces && x in v.spaces[d].leaves && v.spaces[d].leaves[x].frame !in c.held
        && Partition(p, c.(held := c.held + {v.spaces[d].leaves[x].frame}), v')
      else v' == v
  {
    var (v', ok) := Unmap(v, d, x);
    if ok {
      var f := v.spaces[d].leaves[x].frame;
      assert FrameOf(c, v, UserLeaf(d, x)) == Some(f);
      assert f in c.held ==> FrameOf(c, v, Held(f)) == Some(f);
      Move(p, c, v, c.(held := c.held + {f}), v', UserLeaf(d, x), Held(f));
    }
  }

  // ---------------------------------------------------------------- destroy

  function TableFrames(s: Space, i: nat): set<nat>
  {
    set j | j in s.tables && i <= j < KERNEL_PDE :: s.tables[j].frame
  }

  lemma FreeTablesEffect(p: Pmm, s: Space, i: nat)
    requires forall j :: j in s.tables && i <= j < KERNEL_PDE ==> s.tables[j].frame in p.used && InPool(p, s.tables[j].frame)
    requires forall j, k | j in s.tables && k in s.tables && i <= j < KERNEL_PDE && i <= k < KERNEL_PDE ::
               s.tables[j].frame == s.tables[k].frame ==> j == k
    ensures FreeTables(p, s, i) == p.(used := p.used - TableFrames(s, i))
    decreases KERNEL_PDE - i
  {
    if i < KERNEL_PDE {
      var p1 := if i in s.tables then Free(p, s.tables[i].frame) else p;
      FreeTablesEffect(p1, s, i + 1);
      assert TableFrames(s, i) == TableFrames(s, i + 1) + if i in s.tables then {s.tables[i].frame} else {};
      assert p.used - TableFrames(s, i) == p1.used - TableFrames(s, i + 1);
    }
  }

  function GoneOwners(v: Vm, d: nat): set<Owner>
    requires d in v.spaces
  {
    {Directory(d)} + (set j | j in v.spaces[d].tables && j < KERNEL_PDE :: Table(d, j))
  }

  lemma RemoveSpaceFrames(c: Claims, v: Vm, d: nat, o: Owner)
    requires d in v.spaces && d != v.kdir && v.spaces[d].leaves == map[]
    ensures FrameOf(c, v.(spaces := v.spaces - {d}), o)
            == if o in GoneOwners(v, d) then None else FrameOf(c, v, o)
  {
  }

  lemma TablesDistinct(p: Pmm, c: Claims, v: Vm, d: nat)
    requires Partition(p, c, v) && d in v.spaces
    ensures forall j :: j in v.spaces[d].tables && j < KERNEL_PDE ==>
              var f := v.spaces[d].tables[j].frame; f in p.used && InPool(p, f) && f != d
    ensures forall j, k | j in v.spaces[d].tables && k in v.spaces[d].tables && j < KERNEL_PDE && k < KERNEL_PDE ::
              v.spaces[d].tables[j].frame == v.spaces[d].tables[k].frame ==> j == k
  {
    var s := v.spaces[d];
    assert FrameOf(c, v, Directory(d)) == Some(d);
    forall j | j in s.tables && j < KERNEL_PDE
      ensures s.tables[j].frame in p.used && InPool(p, s.tables[j].frame) && s.tables[j].frame != d
    {
      assert FrameOf(c, v, Table(d, j)) == Some(s.tables[j].frame);
    }
    forall j, k | j in s.tables && k in s.tables && j < KERNEL_PDE && k < KERNEL_PDE && s.tables[j].frame == s.tables[k].frame
      ensures j == k
    {
      assert FrameOf(c, v, Table(d, j)) == FrameOf(c, v, Table(d, k));
    }
  }

  /** Destroying a user space that has no pages left frees its tables and its directory,
      each once, and nothing else. */
  lemma DestroyPartition(p: Pmm, c: Claims, v: Vm, d: nat)
    requires Partition(p, c, v)
    requires d in v.spaces && d != v.kdir && v.spaces[d].leaves == map[]
    ensures var (p', v') := Destroy(p, v, d);
      && Partition(p', c, v')
      && p' == p.(used := p.used - (TableFrames(v.spaces[d], 0) + {d}))
      && v' == v.(spaces := v.spaces - {d})
  {
    var s := v.spaces[d];
    DirectoriesUsed(p, c, v);
    TablesDistinct(p, c, v, d);
    FreeTablesEffect(p, s, 0);
    var (p', v') := Destroy(p, v, d);
    var frames := TableFrames(s, 0) + {d};
    assert p.used - frames == p.used - TableFrames(s, 0) - {d};
    GoneFrames(c, v, d, GoneOwners(v, d), frames);
    forall o ensures FrameOf(c, v', o) == if o in GoneOwners(v, d) then None else FrameOf(c, v, o) {
      RemoveSpaceFrames(c, v, d, o);
    }
    Lose(p, c, v, p', c, v', GoneOwners(v, d), frames);
  }

  lemma GoneFrames(c: Claims, v: Vm, d: nat, gone: set<Owner>, frames: set<nat>)
    requires d in v.spaces
    requires gone == GoneOwners(v, d)
    requires frames == TableFrames(v.spaces[d], 0) + {d}
    ensures forall f :: f in frames <==> exists o :: o in gone && FrameOf(c, v, o) == Some(f)
  {
    forall f ensures f in frames <==> exists o :: o in gone && FrameOf(c, v, o) == Some(f) {
      if f in frames {
        if f == d {
          assert Directory(d) in gone && FrameOf(c, v, Directory(d)) == Some(f);
        } else {
          var j :| j in v.spaces[d].tables && 0 <= j < KERNEL_PDE && v.spaces[d].tables[j].frame == f;
          assert Table(d, j) in gone && FrameOf(c, v, Table(d, j)) == Some(f);
        }
      }
    }
  }
}
