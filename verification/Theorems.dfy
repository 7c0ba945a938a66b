/** What holds in every reachable state and over every run of the kernel. */
module Theorems {
  import opened Common
  import opened Archive
  import opened PmmSpec
  import opened VmSpec
  import opened Owners
  import opened UserPages
  import opened SchedSpec
  import opened Machine
  import opened ProcInv
  import opened RunProofs
  import HeapSpec
  import HeapRuns

  // ---------------------------------------------------------------- runs

  /** The state the kernel starts running tasks in: `pmm_init`, `vmm_init` and `sched_init`
      are done, task 0 runs, and nothing else exists. */
  ghost predicate BootState(b: Boot, k: K)
  {
    var s := k.sys;
    && MemInv(s.mem, Claims(b.base.reserved, {}, {})) && KernelHalf(b.base, s.mem.v)
    && s.mem.v.spaces == map[b.base.kdir := b.base.kernel] && s.mem.v.cr3 == b.base.kdir && s.h == HeapSpec.EMPTY
    && 1 <= |s.tasks| && s.tasks[0] == Task(0, Running, b.base.kdir, 0, InKernel)
    && (forall i :: 1 <= i < |s.tasks| ==> s.tasks[i] == NO_TASK)
    && s.current == 0 && s.nextId == 1
    && (forall i :: 0 <= i < |k.procs| ==> k.procs[i] == NO_PROC) && k.nextPid == 1 && k.log == []
  }

  lemma BootSys(b: Boot, k: K)
    requires BootState(b, k)
    ensures SysInv(b.base, k.sys)
  {
    HeapRuns.EmptySound();
    assert StackSet(k.sys.tasks) == {};
    assert HeapSpec.LiveBlocks(HeapSpec.EMPTY) == {};
  }

  lemma BootProcs(b: Boot, k: K)
    requires BootState(b, k)
    ensures ProcsInv(b, k)
  {
    forall s | 0 <= s < |k.procs| ensures RecordOk(k.procs[s], 1, 1) && !Owning(k.procs[s]) {}
  }

  /** The actions can be taken one after the other. */
  predicate Possible(b: Boot, k: K, acts: seq<Action>)
    decreases |acts|
  {
    acts == [] || (Shaped(k) && Enabled(k, acts[0]) && Possible(b, Step(b, k, acts[0]), acts[1..]))
  }

  function After(b: Boot, k: K, acts: seq<Action>): K
    requires Possible(b, k, acts)
    decreases |acts|
  {
    if acts == [] then k else After(b, Step(b, k, acts[0]), acts[1..])
  }

  lemma {:induction false} RunInv(b: Boot, k: K, acts: seq<Action>)
    requires Inv(b, k) && Possible(b, k, acts)
    ensures Inv(b, After(b, k, acts))
    decreases |acts|
  {
    hide Inv;
    if acts != [] {
      StepInv(b, k, acts[0]);
      RunInv(b, Step(b, k, acts[0]), acts[1..]);
    }
  }

  ghost predicate Reachable(b: Boot, k: K)
  {
    exists k0, acts :: BootState(b, k0) && Possible(b, k0, acts) && k == After(b, k0, acts)
  }

  /** Every reachable state satisfies the invariant. */
  lemma ReachableInv(b: Boot, k: K)
    requires Reachable(b, k)
    ensures Inv(b, k)
  {
    hide SysInv;
    hide ProcsInv;
    var k0, acts :| BootState(b, k0) && Possible(b, k0, acts) && k == After(b, k0, acts);
    BootSys(b, k0);
    BootProcs(b, k0);
    RunInv(b, k0, acts);
  }

  // ---------------------------------------------------------------- frames

  function ClaimsOf(b: Boot, k: K): Claims { Claims(b.base.reserved, k.sys.h.pages, {}) }

  /** In every reachable state each allocated frame has exactly one owner and every owner's
      frame is allocated; no frame was freed twice, nothing but a live directory was ever
      destroyed, and nothing but a live stack was ever given to `kfree`. */
  lemma FrameOwnership(b: Boot, k: K, f: nat)
    requires Reachable(b, k)
    ensures f in k.sys.mem.p.used <==> exists o :: FrameOf(ClaimsOf(b, k), k.sys.mem.v, o) == Some(f)
    ensures forall o1, o2 :: FrameOf(ClaimsOf(b, k), k.sys.mem.v, o1) == Some(f) && FrameOf(ClaimsOf(b, k), k.sys.mem.v, o2) == Some(f) ==> o1 == o2
    ensures !k.sys.mem.p.doubleFree && !k.sys.mem.v.badDestroy && !k.sys.h.badFree
  {
    ReachableInv(b, k);
    OneOwnerEach(k.sys.mem.p, ClaimsOf(b, k), k.sys.mem.v, f);
  }

  function FramesOfTables(s: Space): set<nat> { set i | i in s.tables :: s.tables[i].frame }

  /** Page tables that `vmm_map_page` has added to the kernel's directory since boot. */
  function LateTables(b: Boot, k: K): set<nat>
    requires b.base.kdir in k.sys.mem.v.spaces
  {
    var ts := k.sys.mem.v.spaces[b.base.kdir].tables;
    set i | i in ts && i !in b.base.kernel.tables :: ts[i].frame
  }

  /** A user page shares its frame with nothing: no directory, no page table, no heap page, no
      reserved frame, no other page of any process.  So neither a store to a page table nor one
      to a heap header, both of which stay inside such frames, can touch a user page. */
  lemma UserFrameAlone(b: Boot, k: K, d: nat, x: nat)
    requires Reachable(b, k) && d in k.sys.mem.v.spaces && d != b.base.kdir && x in k.sys.mem.v.spaces[d].leaves
    ensures var v := k.sys.mem.v;
      var f := v.spaces[d].leaves[x].frame;
      && f in k.sys.mem.p.used && f !in b.base.reserved && f !in k.sys.h.pages && f !in v.spaces
      && (forall d2, i :: d2 in v.spaces && i in v.spaces[d2].tables ==> v.spaces[d2].tables[i].frame != f)
      && (forall d2, y :: d2 in v.spaces && d2 != b.base.kdir && y in v.spaces[d2].leaves && v.spaces[d2].leaves[y].frame == f ==>
            d2 == d && y == x)
  {
    ReachableInv(b, k);
    LeafAlone(k.sys.mem.p, ClaimsOf(b, k), k.sys.mem.v, d, x);
  }

  lemma LeafAlone(p: Pmm, c: Claims, v: Vm, d: nat, x: nat)
    requires VmInv(v) && Partition(p, c, v) && d in v.spaces && d != v.kdir && x in v.spaces[d].leaves
    ensures var f := v.spaces[d].leaves[x].frame;
      && f in p.used && f !in c.reserved && f !in c.heap && f !in v.spaces
      && (forall d2, i :: d2 in v.spaces && i in v.spaces[d2].tables ==> v.spaces[d2].tables[i].frame != f)
      && (forall d2, y :: d2 in v.spaces && d2 != v.kdir && y in v.spaces[d2].leaves && v.spaces[d2].leaves[y].frame == f ==>
            d2 == d && y == x)
  {
    hide TlbOk;
    var f := v.spaces[d].leaves[x].frame;
    var o := UserLeaf(d, x);
    assert FrameOf(c, v, o) == Some(f);
    assert FrameOf(c, v, Owner.Reserved(f)) != Some(f) && FrameOf(c, v, HeapPage(f)) != Some(f) && FrameOf(c, v, Directory(f)) != Some(f);
    forall d2, i | d2 in v.spaces && i in v.spaces[d2].tables ensures v.spaces[d2].tables[i].frame != f {
      var owner := if Own(v, d2, i) then d2 else v.kdir;
      assert SpaceOk(v, d2);
      assert FrameOf(c, v, Table(owner, i)) != Some(f);
    }
    forall d2, y | d2 in v.spaces && d2 != v.kdir && y in v.spaces[d2].leaves && v.spaces[d2].leaves[y].frame == f
      ensures d2 == d && y == x {
      assert FrameOf(c, v, UserLeaf(d2, y)) == Some(f);
    }
  }

  /** Frames the kernel holds from boot on: set aside, its directory, its page tables. */
  function BootFrames(b: Boot): set<nat>
  {
    b.base.reserved + {b.base.kdir} + FramesOfTables(b.base.kernel)
  }

  /** No user process and no dead task is left. */
  predicate Quiescent(k: K)
  {
    && (forall s :: 0 <= s < |k.procs| ==> k.procs[s].state == Vacant)
    && (forall i :: 0 <= i < |k.sys.tasks| ==> k.sys.tasks[i].state != Zombie)
  }

  lemma OnlyKernelSpace(k: K)
    requires SpacesOk(k.procs, k.sys.tasks, k.sys.mem.v) && Quiescent(k) && k.sys.mem.v.kdir in k.sys.mem.v.spaces
    ensures k.sys.mem.v.spaces.Keys == {k.sys.mem.v.kdir}
  {
    forall d | d in k.sys.mem.v.spaces ensures d == k.sys.mem.v.kdir {
      assert d != k.sys.mem.v.kdir ==> HeldBy(k.procs, k.sys.tasks, d);
    }
  }

  lemma KernelFramesOnly(p: Pmm, c: Claims, v: Vm)
    requires Partition(p, c, v) && v.spaces.Keys == {v.kdir} && c.held == {}
    ensures p.used == c.reserved + {v.kdir} + FramesOfTables(v.spaces[v.kdir]) + c.heap
  {
    var all := c.reserved + {v.kdir} + FramesOfTables(v.spaces[v.kdir]) + c.heap;
    forall f | f in p.used ensures f in all {
      var o :| FrameOf(c, v, o) == Some(f);
    }
    forall f | f in all ensures f in p.used {
      if f in c.reserved {
        assert FrameOf(c, v, Owner.Reserved(f)) == Some(f);
      } else if f == v.kdir {
        assert FrameOf(c, v, Directory(f)) == Some(f);
      } else if f in c.heap {
        assert FrameOf(c, v, HeapPage(f)) == Some(f);
      } else {
        var i :| i in v.spaces[v.kdir].tables && v.spaces[v.kdir].tables[i].frame == f;
        assert FrameOf(c, v, Table(v.kdir, i)) == Some(f);
      }
    }
  }

  /** No leak: once all user processes are gone and all dead tasks reaped, the frames in use
      are those of boot, the heap pages, and page tables of the kernel's own directory that its
      own mappings made, however long the run and whatever failed in it. */
  lemma NoLeak(b: Boot, k: K)
    requires Reachable(b, k) && Quiescent(k)
    ensures b.base.kdir in k.sys.mem.v.spaces
    ensures k.sys.mem.p.used == BootFrames(b) + k.sys.h.pages + LateTables(b, k)
  {
    ReachableInv(b, k);
    hide Reachable; hide Partition; hide VmInv; hide KernelMap; hide HasDirect; hide TableOk; hide LinkOk; hide TextsOk;
    hide LogOk; hide HistoryOk; hide TasksOk; hide StacksOk; hide HeapSmall;
    KernelThere(b, k);
    OnlyKernelSpace(k);
    hide SpacesOk; hide Quiescent;
    KernelFramesOnly(k.sys.mem.p, ClaimsOf(b, k), k.sys.mem.v);
    TablesSplit(b, k);
  }

  lemma KernelThere(b: Boot, k: K)
    requires Inv(b, k)
    ensures k.sys.mem.v.kdir == b.base.kdir && b.base.kdir in k.sys.mem.v.spaces
  {
    hide ProcsInv;
  }

  lemma TablesSplit(b: Boot, k: K)
    requires b.base.kdir in k.sys.mem.v.spaces && BootTables(b.base.kernel, k.sys.mem.v.spaces[b.base.kdir])
    ensures FramesOfTables(k.sys.mem.v.spaces[b.base.kdir]) == FramesOfTables(b.base.kernel) + LateTables(b, k)
  {
  }

  lemma BootUse(b: Boot, k: K)
    requires BootState(b, k)
    ensures k.sys.mem.p.used == BootFrames(b)
  {
    KernelFramesOnly(k.sys.mem.p, Claims(b.base.reserved, {}, {}), k.sys.mem.v);
  }

  /** With only thread stacks in it, the heap never takes more than one page per task slot
      other than slot 0, in an endless run too. */
  lemma HeapBounded(b: Boot, k: K)
    requires Reachable(b, k)
    ensures |k.sys.h.pages| <= |k.sys.tasks| - 1
  {
    ReachableInv(b, k);
  }

  // ---------------------------------------------------------------- translations

  lemma CachedIsOwned(p: Pmm, c: Claims, base: Base, v: Vm, x: nat)
    requires VmInv(v) && KernelHalf(base, v) && Partition(p, c, v) && x in v.tlb
    ensures Lookup(v, v.cr3, x) == Some(v.tlb[x])
    ensures v.tlb[x].user ==> v.tlb[x].frame in p.used && FrameOf(c, v, UserLeaf(v.cr3, x)) == Some(v.tlb[x].frame)
  {
    if v.tlb[x].user {
      assert x in LeavesOf(v, v.cr3, x / ENTRIES);
      assert FrameOf(c, v, UserLeaf(v.cr3, x)) == Some(v.tlb[x].frame);
    }
  }

  /** The TLB agrees with a walk of the loaded directory, in frame and rights; a cached user
      page is a page of the loaded space, and its frame is allocated to exactly that page. */
  lemma TlbAgrees(b: Boot, k: K, x: nat)
    requires Reachable(b, k) && x in k.sys.mem.v.tlb
    ensures k.sys.mem.v.kdir in k.sys.mem.v.spaces
    ensures Lookup(k.sys.mem.v, k.sys.mem.v.cr3, x) == Some(k.sys.mem.v.tlb[x])
    ensures k.sys.mem.v.tlb[x].user ==>
              && k.sys.mem.v.tlb[x].frame in k.sys.mem.p.used
              && FrameOf(ClaimsOf(b, k), k.sys.mem.v, UserLeaf(k.sys.mem.v.cr3, x)) == Some(k.sys.mem.v.tlb[x].frame)
  {
    ReachableInv(b, k);
    CachedIsOwned(k.sys.mem.p, ClaimsOf(b, k), b.base, k.sys.mem.v, x);
  }

  lemma DirectMapIn(base: Base, v: Vm, d: nat, f: nat)
    requires VmInv(v) && KernelHalf(base, v) && d in v.spaces && f < DIRECT_PAGES
    ensures Lookup(v, d, DirectPage(f)) == Some(Mapping(f, true, false))
  {
    var x := DirectPage(f);
    assert x in v.spaces[v.kdir].leaves && KERNEL_PDE <= x / ENTRIES < KERNEL_PDE + 4;
    assert HasDirect(v.spaces[d]);
  }

  /** In every live space the direct map reaches every frame below the limit, supervisor
      only. */
  lemma DirectMapEverywhere(b: Boot, k: K, d: nat, f: nat)
    requires Reachable(b, k) && d in k.sys.mem.v.spaces && f < DIRECT_PAGES
    ensures k.sys.mem.v.kdir in k.sys.mem.v.spaces
    ensures Lookup(k.sys.mem.v, d, DirectPage(f)) == Some(Mapping(f, true, false))
  {
    ReachableInv(b, k);
    DirectMapIn(b.base, k.sys.mem.v, d, f);
  }

  /** A running process reads its program through the page tables: the code page maps,
      read-only for user mode, to a frame holding the archive's code bytes followed by zeros;
      the stack page beside it is writable; the entry point lies inside the code. */
  lemma ProgramLoaded(b: Boot, k: K, s: nat)
    requires Reachable(b, k) && s < |k.procs| && k.procs[s].state == Active
    ensures k.sys.mem.v.kdir in k.sys.mem.v.spaces && Program(b.archive, k.procs[s].path).Some?
    ensures var q, v, (code, entry) := k.procs[s], k.sys.mem.v, Program(b.archive, k.procs[s].path).value;
      && |q.pages| == 2 && q.pages[0].frame in k.sys.mem.data
      && Lookup(v, q.space, CODE_VPN) == Some(Mapping(q.pages[0].frame, false, true))
      && Lookup(v, q.space, STACK_VPN) == Some(Mapping(q.pages[1].frame, true, true))
      && k.sys.mem.data[q.pages[0].frame] == code + Zeros(PAGE_SIZE - |code|)
      && q.entry == CODE_VPN * 4096 + entry && entry < |code|
  {
    ReachableInv(b, k);
    assert TextOk(b.archive, k.procs[s], k.sys.mem.v, k.sys.mem.data);
    RightsExact(k.sys.mem.v, k.procs[s].space, CODE_VPN);
    RightsExact(k.sys.mem.v, k.procs[s].space, STACK_VPN);
  }

  /** From the archive builder to the page walk: when the archive was built from `files`, a
      running process reads the program of the first file packed under its path. */
  lemma PackedProgramRuns(b: Boot, k: K, s: nat, files: seq<File>)
    requires Reachable(b, k) && s < |k.procs| && k.procs[s].state == Active
    requires Packable(files) && b.archive == Build(files)
    ensures k.sys.mem.v.kdir in k.sys.mem.v.spaces
    ensures var q, v, i := k.procs[s], k.sys.mem.v, FirstFile(files, k.procs[s].path, 0);
      && i < |files| && files[i].path == q.path && ParseImage(files[i].contents).Some?
      && var (code, entry) := ParseImage(files[i].contents).value;
      && Lookup(v, q.space, CODE_VPN).Some? && var f := Lookup(v, q.space, CODE_VPN).value.frame;
      && f in k.sys.mem.data && k.sys.mem.data[f] == code + Zeros(PAGE_SIZE - |code|)
      && q.entry == CODE_VPN * 4096 + entry
  {
    hide *;
    ReachableInv(b, k);
    PathsAreStrings(b, k, s);
    ProgramLoaded(b, k, s);
    PackedProgram(files, k.procs[s].path);
  }

  lemma PackedProgram(files: seq<File>, path: Bytes)
    requires Packable(files) && IsCString(path)
    ensures var i := FirstFile(files, path, 0);
      Program(Build(files), path) == if i == |files| then None else ParseImage(files[i].contents)
  {
    hide Build; hide ParseImage; hide Find;
    RoundTrip(files, path);
  }

  lemma PathsAreStrings(b: Boot, k: K, s: nat)
    requires Inv(b, k) && s < |k.procs|
    ensures IsCString(k.procs[s].path)
  {
    hide SysInv; hide IsCString;
    assert RecordOk(k.procs[s], k.nextPid, k.sys.nextId);
  }

  // ---------------------------------------------------------------- scheduling

  /** Exactly one task runs and it is the current one; task 0 lives forever in the kernel's
      directory; the loaded directory is the current task's, and it and every task's
      directory and stack are live. */
  lemma SchedulerSafe(b: Boot, k: K)
    requires Reachable(b, k)
    ensures k.sys.current < |k.sys.tasks|
    ensures forall i :: 0 <= i < |k.sys.tasks| ==> (k.sys.tasks[i].state == Running <==> i == k.sys.current)
    ensures Live(k.sys.tasks[0]) && k.sys.tasks[0].space == k.sys.mem.v.kdir
    ensures k.sys.mem.v.cr3 == k.sys.tasks[k.sys.current].space
    ensures forall i :: 0 <= i < |k.sys.tasks| && k.sys.tasks[i].state != Unused ==> k.sys.tasks[i].space in k.sys.mem.v.spaces
    ensures forall i :: 1 <= i < |k.sys.tasks| && k.sys.tasks[i].state != Unused ==> HeapSpec.LivePtr(k.sys.h, k.sys.tasks[i].stack)
  {
    ReachableInv(b, k);
    forall i | 1 <= i < |k.sys.tasks| && k.sys.tasks[i].state != Unused ensures HeapSpec.LivePtr(k.sys.h, k.sys.tasks[i].stack) {
      var blk := StackBlock(k.sys.tasks[i]);
      assert blk in StackSet(k.sys.tasks);
      assert HeapSpec.Ptr(blk) == k.sys.tasks[i].stack;
    }
  }

  // ---------------------------------------------------------------- processes

  /** The process table in every reachable state: pids and task ids name one record each;
      parents are older than their children, and a parent named is a running process, so an
      exited record is kept only while somebody can collect it; a process that has not loaded
      its program has no children; a record has a live task unless it has exited, and that
      task, looking itself up, finds that record. */
  lemma ProcessTable(b: Boot, k: K, s: nat)
    requires Reachable(b, k) && s < |k.procs| && k.procs[s].state != Vacant
    ensures forall t: nat :: t < |k.procs| && k.procs[t].state != Vacant && t != s ==>
              k.procs[t].pid != k.procs[s].pid && k.procs[t].taskId != k.procs[s].taskId
    ensures k.procs[s].parent < k.procs[s].pid
    ensures k.procs[s].parent != 0 ==>
              var p := FindPid(k.procs, k.procs[s].parent, 0); p < |k.procs| && k.procs[p].state == Active
    ensures k.procs[s].state == Exited ==> k.procs[s].parent != 0
    ensures k.procs[s].state == Created ==>
              forall t: nat :: t < |k.procs| && k.procs[t].state != Vacant ==> k.procs[t].parent != k.procs[s].pid
    ensures FindPid(k.procs, k.procs[s].pid, 0) == s && FindTask(k.procs, k.procs[s].taskId, 0) == s
    ensures k.procs[s].state != Exited <==>
              exists i :: 1 <= i < |k.sys.tasks| && Live(k.sys.tasks[i]) && k.sys.tasks[i].id == k.procs[s].taskId
  {
    ReachableInv(b, k);
    hide *;
    InvTable(b, k);
    UniqueRecord(k.procs, k.nextPid, k.sys.nextId, s);
    Parents(k.procs, k.nextPid, k.sys.nextId, s);
    RecordHasTask(k.procs, k.sys.tasks, k.sys.mem.v.kdir, s);
  }

  lemma InvTable(b: Boot, k: K)
    requires Inv(b, k)
    ensures TableOk(k.procs, k.nextPid, k.sys.nextId) && LinkOk(k.procs, k.sys.tasks, k.sys.mem.v.kdir)
  {
    hide SysInv; hide TableOk; hide LinkOk;
  }

  lemma UniqueRecord(procs: seq<Process>, nextPid: nat, nextId: nat, s: nat)
    requires TableOk(procs, nextPid, nextId) && s < |procs| && procs[s].state != Vacant
    ensures forall t: nat :: t < |procs| && procs[t].state != Vacant && t != s ==>
              procs[t].pid != procs[s].pid && procs[t].taskId != procs[s].taskId
    ensures FindPid(procs, procs[s].pid, 0) == s && FindTask(procs, procs[s].taskId, 0) == s
  {
    hide HasActive; hide RecordOk;
  }

  lemma Parents(procs: seq<Process>, nextPid: nat, nextId: nat, s: nat)
    requires TableOk(procs, nextPid, nextId) && s < |procs| && procs[s].state != Vacant
    ensures procs[s].parent < procs[s].pid && (procs[s].state == Exited ==> procs[s].parent != 0)
    ensures procs[s].parent != 0 ==>
              var p := FindPid(procs, procs[s].parent, 0); p < |procs| && procs[p].state == Active
    ensures procs[s].state == Created ==>
              forall t: nat :: t < |procs| && procs[t].state != Vacant ==> procs[t].parent != procs[s].pid
  {
    assert RecordOk(procs[s], nextPid, nextId);
    if procs[s].parent != 0 {
      RunningParent(procs, nextPid, nextId, s);
    }
    if procs[s].state == Created {
      forall t: nat | t < |procs| && procs[t].state != Vacant ensures procs[t].parent != procs[s].pid {
        if procs[t].parent != 0 {
          RunningParent(procs, nextPid, nextId, t);
          UniqueRecord(procs, nextPid, nextId, s);
        }
      }
    }
  }

  lemma RunningParent(procs: seq<Process>, nextPid: nat, nextId: nat, s: nat)
    requires TableOk(procs, nextPid, nextId) && s < |procs| && procs[s].state != Vacant && procs[s].parent != 0
    ensures var p := FindPid(procs, procs[s].parent, 0); p < |procs| && procs[p].state == Active
  {
    assert HasActive(procs, procs[s].parent);
    var j :| 0 <= j < |procs| && procs[j].state == Active && procs[j].pid == procs[s].parent;
    UniqueRecord(procs, nextPid, nextId, j);
  }

  lemma RecordHasTask(procs: seq<Process>, tasks: seq<Task>, kdir: nat, s: nat)
    requires LinkOk(procs, tasks, kdir) && s < |procs| && procs[s].state != Vacant
    ensures procs[s].state != Exited <==> exists i :: 1 <= i < |tasks| && Live(tasks[i]) && tasks[i].id == procs[s].taskId
  {
    if Owning(procs[s]) {
      assert HasTask(tasks, procs[s]);
    } else {
      forall i | 1 <= i < |tasks| && Live(tasks[i]) ensures tasks[i].id != procs[s].taskId {
        assert tasks[i].id == procs[s].taskId ==> Fits(tasks[i], procs[s], s, kdir);
      }
    }
  }
}
