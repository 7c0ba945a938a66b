/** Exactly when spawning and loading a program succeed. */
module Success {
  import opened Common
  import opened Archive
  import opened PmmSpec
  import opened VmSpec
  import opened Owners
  import opened UserPages
  import opened HeapSpec
  import opened HeapEffects
  import opened SchedSpec
  import opened SchedProofs
  import opened Machine
  import opened ProcInv
  import opened ExecProofs
  import opened StepProofs
  import opened StartProofs
  import opened SpawnProofs
  import opened Theorems

  // ---------------------------------------------------------------- room in the heap

  lemma MergeRoom(bs: seq<Block>, i: nat, n: nat)
    requires i + 1 < |bs| && bs[i].free && HasRoom(bs, n)
    ensures HasRoom(bs[..i] + [bs[i].(size := bs[i].size + HEADER + bs[i + 1].size)] + bs[i + 2..], n)
  {
    var m := bs[i].(size := bs[i].size + HEADER + bs[i + 1].size);
    var bs' := bs[..i] + [m] + bs[i + 2..];
    var j :| 0 <= j < |bs| && bs[j].free && bs[j].size >= n;
    var j' := if j <= i then j else if j == i + 1 then i else j - 1;
    assert bs'[j'].free && bs'[j'].size >= n;
  }

  lemma {:induction false} CoalesceRoom(bs: seq<Block>, i: nat, n: nat)
    requires i < |bs| && bs[i].free && HasRoom(bs, n)
    ensures HasRoom(Coalesce(bs, i), n)
    decreases |bs|
  {
    if i + 1 < |bs| && bs[i + 1].free && End(bs[i]) == bs[i + 1].addr {
      MergeRoom(bs, i, n);
      var m := bs[i].(size := bs[i].size + HEADER + bs[i + 1].size);
      CoalesceRoom(bs[..i] + [m] + bs[i + 2..], i, n);
    }
  }

  /** Freeing a live block of `n` bytes makes room for `n` bytes. */
  lemma ReleaseMakesRoom(h: Heap, b: Block, n: nat)
    requires HeapInv(h) && b in LiveBlocks(h) && b.size >= n
    ensures HasRoom(Release(h, Ptr(b)).blocks, n)
  {
    hide Tiled; hide HeapSpec.Shaped;
    var k := IndexOf(h.blocks, b.addr, 0);
    var j :| 0 <= j < |h.blocks| && h.blocks[j] == b;
    DistinctAddrs(h, j, k);
    var bs := h.blocks[k := b.(free := true)];
    assert bs[k].free && bs[k].size >= n;
    CoalesceRoom(bs, k, n);
  }

  lemma StackCan(p: Pmm, h: Heap)
    ensures Malloc(p, h, STACK_SIZE).2 != 0 <==> HasRoom(h.blocks, STACK_SIZE) || FreeDirect(p) != {}
  {
    assert AlignedSize(STACK_SIZE) == STACK_SIZE;
    MallocSucceeds(p, h, STACK_SIZE);
    hide Malloc; hide FreeDirect; hide HasRoom;
  }

  // ---------------------------------------------------------------- reaping first

  predicate DeadAt(s: Sys, j: nat) { 1 <= j < |s.tasks| && j != s.current && s.tasks[j].state == Zombie }

  lemma CleanupRoom(base: Base, s: Sys, i: nat)
    requires SysInv(base, s) && DeadAt(s, i)
    ensures HasRoom(Cleanup(s, i).h.blocks, STACK_SIZE)
  {
    hide MemInv; hide KernelHalf; hide TaskSpaces; hide HeapSmall; hide Destroy; hide HeapInv;
    StacksDrop(s.tasks, LiveBlocks(s.h), i);
    ReleaseMakesRoom(s.h, StackBlock(s.tasks[i]), STACK_SIZE);
  }

  /** Reaping a dead task leaves room for a stack: that of the dead task. */
  lemma {:induction false} ReapRoom(base: Base, s: Sys, i: nat)
    requires SysInv(base, s) && 1 <= i
    requires HasRoom(s.h.blocks, STACK_SIZE) || exists j :: i <= j && DeadAt(s, j)
    ensures HasRoom(Reap(s, i).h.blocks, STACK_SIZE)
    decreases |s.tasks| - i
  {
    hide SysInv; hide HasRoom;
    if i < |s.tasks| {
      if DeadAt(s, i) {
        CleanupRoom(base, s, i);
        CleanupKeeps(base, s, i);
        hide Cleanup;
        ReapRoom(base, Cleanup(s, i), i + 1);
      } else {
        ReapRoom(base, s, i + 1);
      }
    }
  }

  lemma {:induction false} ReapNothing(s: Sys, i: nat)
    requires 1 <= i && forall j :: i <= j ==> !DeadAt(s, j)
    ensures Reap(s, i) == s
    decreases |s.tasks| - i
  {
    if i < |s.tasks| {
      assert !DeadAt(s, i);
      ReapNothing(s, i + 1);
    }
  }

  /** A slot is free once the dead are reaped. */
  lemma SlotCan(s: Sys)
    requires 1 <= |s.tasks|
    ensures FirstUnused(Reap(s, 1).tasks, 1) < |s.tasks| <==>
            exists j :: 1 <= j < |s.tasks| && (DeadAt(s, j) || s.tasks[j].state == Unused)
  {
    var r := Reap(s, 1);
    if FirstUnused(r.tasks, 1) < |s.tasks| {
      var j := FirstUnused(r.tasks, 1);
      ReapTasks(s, 1, j);
    } else {
      forall j | 1 <= j < |s.tasks| ensures !DeadAt(s, j) && s.tasks[j].state != Unused {
        ReapTasks(s, 1, j);
      }
    }
  }

  // ---------------------------------------------------------------- spawn

  ghost predicate AnyDead(s: Sys) { exists j :: DeadAt(s, j) }
  predicate AnyUnused(s: Sys) { exists j :: 1 <= j < |s.tasks| && s.tasks[j].state == Unused }

  /** A thread can be made: a dead task leaves both its slot and its stack behind; without one
      there must be an unused slot, and room in the heap or a frame for it. */
  ghost predicate ThreadCan(s: Sys)
  {
    AnyDead(s) || (AnyUnused(s) && (HasRoom(s.h.blocks, STACK_SIZE) || FreeDirect(s.mem.p) != {}))
  }

  lemma ThreadSucceeds(base: Base, s: Sys, ctl: Control)
    requires SysInv(base, s)
    ensures 1 <= |s.tasks| && (CreateThread(s, ctl).1 != None <==> ThreadCan(s))
  {
    TasksThere(base, s);
    var r := Reap(s, 1);
    SlotCan(s);
    StackCan(r.mem.p, r.h);
    if AnyDead(s) {
      ReapRoom(base, s, 1);
    } else {
      ReapNothing(s, 1);
    }
    hide SysInv; hide Malloc; hide HasRoom; hide FreeDirect; hide Reap;
  }

  lemma TasksThere(base: Base, s: Sys)
    requires SysInv(base, s)
    ensures 1 <= |s.tasks|
  {
  }

  /** What the caller could look up beforehand. */
  ghost predicate SpawnCan(b: Boot, k: K, path: Bytes)
  {
    && 0 < |path| < PATH_SIZE && Find(b.archive, path) != None
    && (exists s :: 0 <= s < |k.procs| && k.procs[s].state == Vacant)
    && FreeDirect(k.sys.mem.p) != {}
    && (AnyDead(k.sys) ||
        (AnyUnused(k.sys) && (HasRoom(k.sys.h.blocks, STACK_SIZE) || |FreeDirect(k.sys.mem.p)| >= 2)))
  }

  /** `user_spawn` succeeds if and only if the path is in the archive, a record is free, a frame can
      be had for the directory, and either a dead task can be reaped or there is a free task slot
      with room for its stack, in the heap or in one more frame. */
  lemma SpawnSucceeds(b: Boot, k: K, path: Bytes)
    requires Reachable(b, k)
    ensures k.sys.current < |k.sys.tasks| && k.sys.mem.v.kdir in k.sys.mem.v.spaces
    ensures Spawn(b, k, path).1 == k.nextPid <==> SpawnCan(b, k, path)
    ensures Spawn(b, k, path).1 == FAILED <==> !SpawnCan(b, k, path)
  {
    ReachableInv(b, k);
    SpawnReady(b, k);
    hide Reachable; hide Inv; hide SysInv; hide Spawn; hide CreateThread; hide Find; hide FreeDirect; hide Create;
    hide HasRoom; hide AnyDead; hide AnyUnused; hide ThreadCan; hide FirstVacant; hide WithSpace;
    VacantIs(k.procs);
    DirectCan(k.sys.mem.p);
    CreateSys(b.base, k.sys);
    var c := Create(k.sys.mem.p, k.sys.mem.v);
    CreateTakes(k.sys.mem.p, k.sys.mem.v);
    var s1 := k.sys.(mem := k.sys.mem.(p := c.0, v := c.1));
    SpawnResult(b, k, path);
    if c.2 != 0 {
      ThreadSucceeds(b.base, s1, EnterUser);
      SameThreadCan(k.sys, s1);
    }
  }

  lemma CreateTakes(p: Pmm, v: Vm)
    requires v.kdir in v.spaces
    ensures Create(p, v).2 != 0 <==> FreeDirect(p) != {}
    ensures Create(p, v).2 != 0 ==> |FreeDirect(Create(p, v).0)| == |FreeDirect(p)| - 1
  {
    DirectCan(p);
    hide AllocDirect; hide FreeDirect; hide HighTables;
  }

  lemma SpawnResult(b: Boot, k: K, path: Bytes)
    requires k.sys.current < |k.sys.tasks| && k.sys.mem.v.kdir in k.sys.mem.v.spaces
    ensures var c := Create(k.sys.mem.p, k.sys.mem.v);
      var s1 := k.sys.(mem := k.sys.mem.(p := c.0, v := c.1));
      Spawn(b, k, path).1 ==
        if 0 < |path| < PATH_SIZE && Find(b.archive, path) != None && FirstVacant(k.procs, 0) < |k.procs| && c.2 != 0
           && CreateThread(s1, EnterUser).1 != None
        then k.nextPid else FAILED
  {
    hide Create; hide CreateThread; hide Find; hide FirstVacant; hide Destroy; hide FindTask;
  }

  lemma SameThreadCan(s: Sys, s1: Sys)
    requires s1 == s.(mem := s1.mem) && |FreeDirect(s1.mem.p)| == |FreeDirect(s.mem.p)| - 1
    ensures ThreadCan(s1) <==>
            AnyDead(s) || (AnyUnused(s) && (HasRoom(s.h.blocks, STACK_SIZE) || |FreeDirect(s.mem.p)| >= 2))
  {
    assert forall j :: DeadAt(s1, j) <==> DeadAt(s, j);
  }

  lemma VacantIs(procs: seq<Process>)
    ensures FirstVacant(procs, 0) < |procs| <==> exists s :: 0 <= s < |procs| && procs[s].state == Vacant
  {
  }

  // ---------------------------------------------------------------- map

  /** `vmm_map_page_in` on a live directory succeeds if and only if the page lies in the half that
      directory maps, is not mapped yet, and its table is there or a frame for it can be had;
      whatever the frame and the flags. */
  lemma MapSucceeds(p: Pmm, v: Vm, d: nat, x: nat, f: nat, present: bool, w: bool, u: bool)
    requires VmInv(v) && d in v.spaces
    ensures Map(p, v, d, x, f, present, w, u).2 <==>
            && (d == v.kdir || x / ENTRIES < KERNEL_PDE) && x !in v.spaces[d].leaves
            && (x / ENTRIES in v.spaces[d].tables || FreeDirect(p) != {})
  {
    DirectCan(p);
    hide AllocDirect; hide FreeDirect; hide SpaceOk; hide TlbOk;
  }

  // ---------------------------------------------------------------- exec

  /** Frames for one more page: its own, and a table if the space has none there. */
  function PageNeeds(s: Space, x: nat): nat { if x / ENTRIES in s.tables then 1 else 2 }

  /** Copying a page in succeeds exactly when the frames are there, and takes just those. */
  lemma CopySucceeds(m: Mem, d: nat, pages: seq<Page>, x: nat, bytes: Bytes, w: bool)
    requires d in m.v.spaces && x / ENTRIES < KERNEL_PDE && x !in m.v.spaces[d].leaves
    requires |pages| < MAX_PAGES && |bytes| <= PAGE_SIZE
    ensures var (m', pages', ok) := MapCopied(m, d, pages, x, bytes, w);
      && (ok <==> |FreeDirect(m.p)| >= PageNeeds(m.v.spaces[d], x))
      && (ok ==> |FreeDirect(m'.p)| == |FreeDirect(m.p)| - PageNeeds(m.v.spaces[d], x))
      && (ok ==> d in m'.v.spaces && x / ENTRIES in m'.v.spaces[d].tables)
  {
    DirectCan(m.p);
    var (p1, f) := AllocDirect(m.p);
    DirectCan(p1);
    hide AllocDirect; hide FreeDirect; hide Filled;
  }

  /** Frames for code and stack, which share a table: two, and one for the table. */
  function LoadNeeds(s: Space): nat { PageNeeds(s, CODE_VPN) + 1 }

  lemma PrepareSucceeds(archive: Bytes, m: Mem, c: Claims, d: nat, path: Bytes)
    requires MemInv(m, c) && d in m.v.spaces && d != m.v.kdir && m.v.spaces[d].leaves == map[]
    ensures PrepareExec(archive, m, d, [], path).3 <==>
            Program(archive, path).Some? && |FreeDirect(m.p)| >= LoadNeeds(m.v.spaces[d])
  {
    var g := Program(archive, path);
    if g.Some? {
      var code := g.value.0;
      CopySucceeds(m, d, [], CODE_VPN, code, false);
      LoadCode(m, c, d, code);
      var (m1, pages1, ok1) := MapCopied(m, d, [], CODE_VPN, code, false);
      if ok1 {
        CopySucceeds(m1, d, pages1, STACK_VPN, [], true);
      }
      hide MapCopied; hide FreeDirect; hide MemInv; hide FreePages; hide Program;
    }
  }

  /** A fresh task reaches user mode if and only if its path names a well-formed program and the
      frames for code, stack and their table can be had; otherwise its record is gone. */
  lemma ExecSucceeds(b: Boot, k: K)
    requires Reachable(b, k) && k.sys.current < |k.sys.tasks| && Current(k).ctl == EnterUser
    ensures var s := FindTask(k.procs, Current(k).id, 0);
      && s < |k.procs| == |Exec(b, k).procs| && k.procs[s].space in k.sys.mem.v.spaces
      && (Exec(b, k).procs[s].state == Active <==>
            && Program(b.archive, k.procs[s].path).Some?
            && |FreeDirect(k.sys.mem.p)| >= LoadNeeds(k.sys.mem.v.spaces[k.procs[s].space]))
      && (Exec(b, k).procs[s].state != Active ==> Exec(b, k).procs[s] == NO_PROC)
  {
    ReachableInv(b, k);
    CurrentRecord(b, k);
    var s := FindTask(k.procs, Current(k).id, 0);
    CreatedReady(b, k, s);
    var q := k.procs[s];
    PrepareSucceeds(b.archive, k.sys.mem, ClaimsOf(b, k), q.space, q.path);
    hide Reachable; hide Inv; hide PrepareExec; hide FreeDirect; hide Program; hide FindTask;
    ExecUnfold(b, k, s);
    hide Exec; hide Yield; hide Destroy; hide FreePages;
  }

  lemma CreatedReady(b: Boot, k: K, s: nat)
    requires Inv(b, k) && s < |k.procs| && k.procs[s].state == Created
    ensures MemInv(k.sys.mem, ClaimsOf(b, k)) && k.procs[s].pages == [] && k.procs[s].space != 0
    ensures k.procs[s].space in k.sys.mem.v.spaces && k.procs[s].space != k.sys.mem.v.kdir
    ensures k.sys.mem.v.spaces[k.procs[s].space].leaves == map[]
  {
    hide TextsOk; hide LogOk; hide HistoryOk; hide LinkOk; hide TasksOk; hide StacksOk; hide HeapSmall; hide MemInv;
    assert RecordOk(k.procs[s], k.nextPid, k.sys.nextId);
    assert RecordSpaceOk(k.procs[s], k.sys.mem.v);
    EmptyCreated(k.procs, k.nextPid, k.sys.nextId, k.sys.mem.v, s);
  }
}
