/** Boot: the memory manager, scheduler and process table come up in the state from which the
    runs of `Theorems` start. */
module Startup {
  import opened Common
  import opened Archive
  import opened PmmSpec
  import opened VmSpec
  import opened Owners
  import opened UserPages
  import opened SchedSpec
  import opened Machine
  import opened Theorems
  import opened PmmImpl
  import opened VmmImpl
  import opened SchedImpl
  import opened UserImpl
  import HeapSpec

  /** Directory and tables were taken from the free frames, and the tables have one frame each. */
  ghost predicate TakenAtBoot(p0: Pmm, p: Pmm, v: Vm)
  {
    && v.spaces.Keys == {v.kdir}
    && v.kdir in FreeDirect(p0)
    && (forall i :: i in v.spaces[v.kdir].tables ==>
          v.spaces[v.kdir].tables[i].frame in FreeDirect(p0) && v.spaces[v.kdir].tables[i].frame != v.kdir)
    && (forall i, j | i in v.spaces[v.kdir].tables && j in v.spaces[v.kdir].tables ::
          v.spaces[v.kdir].tables[i].frame == v.spaces[v.kdir].tables[j].frame ==> i == j)
    && p == p0.(used := p0.used + {v.kdir} + set i | i in v.spaces[v.kdir].tables :: v.spaces[v.kdir].tables[i].frame)
  }

  lemma BootPartition(p0: Pmm, p: Pmm, v: Vm)
    requires TakenAtBoot(p0, p, v) && !p0.doubleFree && (forall i :: i in v.spaces[v.kdir].tables ==> i < ENTRIES)
    ensures Partition(p, Claims(p0.used, {}, {}), v)
  {
    var c := Claims(p0.used, {}, {});
    BootOwners(p0, p, v, c);
    forall f | f in p.used ensures exists o :: FrameOf(c, v, o) == Some(f) {
      if f in p0.used {
        assert FrameOf(c, v, Owner.Reserved(f)) == Some(f);
      } else if f == v.kdir {
        assert FrameOf(c, v, Directory(f)) == Some(f);
      } else {
        var i :| i in v.spaces[v.kdir].tables && v.spaces[v.kdir].tables[i].frame == f;
        assert FrameOf(c, v, Table(v.kdir, i)) == Some(f);
      }
    }
  }

  /** Owners own what was taken, each something else. */
  lemma BootOwners(p0: Pmm, p: Pmm, v: Vm, c: Claims)
    requires TakenAtBoot(p0, p, v) && (forall i :: i in v.spaces[v.kdir].tables ==> i < ENTRIES) && c == Claims(p0.used, {}, {})
    ensures forall o :: FrameOf(c, v, o).Some? ==> FrameOf(c, v, o).value in p.used
    ensures forall o :: FrameOf(c, v, o).Some? && !o.Reserved? ==> InPool(p, FrameOf(c, v, o).value)
    ensures forall o1, o2 :: FrameOf(c, v, o1).Some? && FrameOf(c, v, o1) == FrameOf(c, v, o2) ==> o1 == o2
  {
  }

  lemma BootVm(v: Vm)
    requires v.spaces.Keys == {v.kdir} && BootSpace(v.spaces[v.kdir], 4096)
    requires v.cr3 == v.kdir && v.tlb == map[] && !v.badDestroy
    ensures VmInv(v) && KernelMap(v.spaces[v.kdir]) && HasDirect(v.spaces[v.kdir])
  {
    var s := v.spaces[v.kdir];
    forall x | x in s.leaves ensures x / ENTRIES in s.tables && Narrower(s.leaves[x], s.tables[x / ENTRIES]) {
      assert 768 <= x / ENTRIES < 772;
    }
    assert SpaceOk(v, v.kdir);
  }

  /** What `Paging.Init` reports, read off the decoded state. */
  lemma TakenIs(m: VmmImpl.Memory, kdir: nat, owner: map<nat, (nat, nat)>, p0: Pmm, p: Pmm, v: Vm)
    requires Separate(m, kdir, {kdir}, owner) && v.kdir == kdir && v.spaces == SpacesOf(m, kdir, {kdir})
    requires {kdir} + owner.Keys <= FreeDirect(p0) && p == p0.(used := p0.used + {kdir} + owner.Keys)
    ensures TakenAtBoot(p0, p, v)
  {
    hide FreeDirect; hide Get; hide Present; hide Leaves;
    var ts := v.spaces[kdir].tables;
    assert v.spaces[kdir] == SpaceOf(m, kdir, kdir);
    forall i | i in ts ensures ts[i].frame in owner && owner[ts[i].frame] == (kdir, i) {
      assert OwnEntry(kdir, kdir, i) && kdir in {kdir};
      DecodeFrame(Get(m, kdir, i));
    }
    var frames := set i | i in ts :: ts[i].frame;
    forall f | f in owner ensures f in frames {
      DecodeFrame(Get(m, owner[f].0, owner[f].1));
      assert owner[f].0 == kdir && owner[f].1 in ts;
    }
    assert frames == owner.Keys;
  }

  /** The kernel's memory once `vmm_init` is done over an allocator in state `p0`. */
  ghost predicate MemoryUp(p0: Pmm, m: Mem)
  {
    && TakenAtBoot(p0, m.p, m.v) && !p0.doubleFree && BootSpace(m.v.spaces[m.v.kdir], 4096)
    && m.v.cr3 == m.v.kdir && m.v.tlb == map[] && !m.v.badDestroy
  }

  /** `vmm_init` over a sound allocator with the limit `main` passes. */
  method StartMemory(pmm: PageAllocator, words: VmmImpl.Memory) returns (paging: Paging, ok: bool)
    requires pmm.Valid() && !pmm.doubleFree && VmmImpl.Shape(words)
    modifies pmm, pmm.bitmap
    ensures ok <==> |FreeDirect(old(pmm.State()))| > 4
    ensures ok ==> paging.Valid() && paging.pmm == pmm
    ensures ok ==> forall data :: MemoryUp(old(pmm.State()), Mem(pmm.State(), paging.State(), data))
  {
    hide UsedSet; hide ClearSet; hide FreeDirect; hide Separate; hide BootSpace; hide TakenAtBoot; hide OnlyDirect;
    ghost var p0 := pmm.State();
    paging := new Paging(pmm, words);
    ok := paging.Init(0x100_0000);
    if ok {
      TakenIs(paging.mem, paging.kdir, paging.owner, p0, pmm.State(), paging.State());
    }
  }

  /** The fixed part of the machine, as booted. */
  ghost function Booted(p0: Pmm, m: Mem, archive: Bytes): Boot
    requires m.v.kdir in m.v.spaces
  {
    Boot(Base(p0.used, m.v.kdir, m.v.spaces[m.v.kdir]), archive)
  }

  /** A scheduler and a process table constructed over that memory are in a boot state. */
  method StartKernel(ghost p0: Pmm, m: Mem, taskSlots: nat, processSlots: nat, archive: Bytes) returns (procs: Processes)
    requires MemoryUp(p0, m) && taskSlots >= 1
    ensures procs.Valid() && procs.State().sys.mem == m && BootState(Booted(p0, m, archive), procs.State())
  {
    hide TakenAtBoot; hide BootSpace; hide Partition; hide VmInv; hide KernelMap; hide HasDirect;
    KernelAlone(p0, m);
    var sched := new Scheduler(taskSlots, m, HeapSpec.EMPTY);
    procs := new Processes(processSlots, sched, archive);
  }

  lemma KernelAlone(p0: Pmm, m: Mem)
    requires MemoryUp(p0, m)
    ensures m.v.spaces.Keys == {m.v.kdir} && m.v.spaces == map[m.v.kdir := m.v.spaces[m.v.kdir]]
    ensures MemInv(m, Claims(p0.used, {}, {})) && KernelMap(m.v.spaces[m.v.kdir]) && HasDirect(m.v.spaces[m.v.kdir])
  {
    hide BootSpace; hide Partition; hide VmInv; hide KernelMap; hide HasDirect; hide FreeDirect;
    BootVm(m.v);
    BootSmall(m.v);
    BootPartition(p0, m.p, m.v);
    assert m.v.spaces == map[m.v.kdir := m.v.spaces[m.v.kdir]];
  }

  lemma BootSmall(v: Vm)
    requires v.kdir in v.spaces && BootSpace(v.spaces[v.kdir], 4096)
    ensures forall i :: i in v.spaces[v.kdir].tables ==> i < ENTRIES
  {
  }
}
