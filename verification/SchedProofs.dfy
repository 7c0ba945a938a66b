/** What every scheduler operation keeps. */
module SchedProofs {
  import opened Common
  import opened PmmSpec
  import opened VmSpec
  import opened Owners
  import opened UserPages
  import opened SchedSpec
  import HeapSpec
  import HeapRuns

  // ---------------------------------------------------------------- reaping

  /** Tearing down a dead task's space: its frames return to the allocator, every other space
      is untouched. */
  lemma DestroyMem(m: Mem, c: Claims, d: nat)
    requires MemInv(m, c) && d in m.v.spaces && d != m.v.kdir && d != m.v.cr3
    requires m.v.spaces[d].leaves == map[]
    ensures var (p, v) := Destroy(m.p, m.v, d);
      MemInv(m.(p := p, v := v), c) && v == m.v.(spaces := m.v.spaces - {d})
  {
    DestroyPartition(m.p, c, m.v, d);
    RemoveKeepsInv(m.v, d);
  }

  lemma NonzeroSpaces(m: Mem, c: Claims)
    requires MemInv(m, c)
    ensures 0 !in m.v.spaces
  {
    DirectoriesUsed(m.p, c, m.v);
  }

  lemma KernelHalfDrop(base: Base, v: Vm, d: nat)
    requires d != v.kdir && KernelHalf(base, v)
    ensures KernelHalf(base, v.(spaces := v.spaces - {d}))
  {
  }

  lemma StacksDrop(tasks: seq<Task>, live: set<HeapSpec.Block>, i: nat)
    requires StacksOk(tasks, live) && 1 <= i < |tasks| && tasks[i].state != Unused
    ensures StackBlock(tasks[i]) in live
    ensures StacksOk(tasks[i := NO_TASK], live - {StackBlock(tasks[i])})
  {
    var tasks' := tasks[i := NO_TASK];
    forall b ensures b in StackSet(tasks') <==> b in StackSet(tasks) && b != StackBlock(tasks[i]) {
      if b in StackSet(tasks) && b != StackBlock(tasks[i]) {
        var j :| 1 <= j < |tasks| && tasks[j].state != Unused && StackBlock(tasks[j]) == b;
        assert tasks'[j] == tasks[j];
      }
      if b in StackSet(tasks') {
        var j :| 1 <= j < |tasks'| && tasks'[j].state != Unused && StackBlock(tasks'[j]) == b;
        assert j != i && tasks[j] == tasks'[j];
      }
    }
  }

  lemma StacksAdd(tasks: seq<Task>, live: set<HeapSpec.Block>, i: nat, t: Task)
    requires StacksOk(tasks, live) && 1 <= i < |tasks| && tasks[i].state == Unused
    requires t.state != Unused && t.stack >= HeapSpec.HEADER && StackBlock(t) !in live
    ensures StacksOk(tasks[i := t], live + {StackBlock(t)})
  {
    var tasks' := tasks[i := t];
    forall j | 1 <= j < |tasks| && tasks[j].state != Unused ensures tasks[j].stack != t.stack {
      assert StackBlock(tasks[j]) in live;
    }
    forall b ensures b in StackSet(tasks') <==> b in StackSet(tasks) || b == StackBlock(t) {
      if b in StackSet(tasks) {
        var j :| 1 <= j < |tasks| && tasks[j].state != Unused && StackBlock(tasks[j]) == b;
        assert tasks'[j] == tasks[j];
      }
      if b == StackBlock(t) { assert tasks'[i] == t; }
    }
  }

  /** Changing a task without touching its stack or freeing its slot. */
  lemma StacksSame(tasks: seq<Task>, tasks': seq<Task>, live: set<HeapSpec.Block>)
    requires StacksOk(tasks, live) && |tasks'| == |tasks|
    requires forall i :: 0 <= i < |tasks| ==>
               (tasks'[i].state == Unused <==> tasks[i].state == Unused) && tasks'[i].stack == tasks[i].stack
    ensures StacksOk(tasks', live)
  {
    forall b ensures b in StackSet(tasks') <==> b in StackSet(tasks) {
      if b in StackSet(tasks) {
        var j :| 1 <= j < |tasks| && tasks[j].state != Unused && StackBlock(tasks[j]) == b;
        assert StackBlock(tasks'[j]) == b;
      }
      if b in StackSet(tasks') {
        var j :| 1 <= j < |tasks'| && tasks'[j].state != Unused && StackBlock(tasks'[j]) == b;
        assert StackBlock(tasks[j]) == b;
      }
    }
  }

  /** The page tables once task `t` is gone. */
  function VmWithout(v: Vm, t: Task): Vm
  {
    if t.space == v.kdir then v else v.(spaces := v.spaces - {t.space})
  }

  lemma CleanupMem(m: Mem, c: Claims, t: Task)
    requires MemInv(m, c) && t.space in m.v.spaces && (t.space != m.v.kdir ==> m.v.spaces[t.space].leaves == map[] && t.space != m.v.cr3)
    ensures var (p, v) := if t.space != 0 && t.space != m.v.kdir then Destroy(m.p, m.v, t.space) else (m.p, m.v);
      MemInv(m.(p := p, v := v), c) && v == VmWithout(m.v, t)
  {
    NonzeroSpaces(m, c);
    if t.space != m.v.kdir {
      DestroyMem(m, c, t.space);
    }
  }

  lemma CleanupHeap(h: HeapSpec.Heap, tasks: seq<Task>, i: nat)
    requires HeapSpec.HeapInv(h) && HeapSmall(h, |tasks|) && StacksOk(tasks, HeapSpec.LiveBlocks(h))
    requires 1 <= i < |tasks| && tasks[i].state != Unused
    ensures tasks[i].stack != 0
    ensures var h' := HeapSpec.Release(h, tasks[i].stack);
      && HeapSpec.HeapInv(h') && HeapSmall(h', |tasks|) && h'.pages == h.pages
      && StacksOk(tasks[i := NO_TASK], HeapSpec.LiveBlocks(h'))
  {
    var b := StackBlock(tasks[i]);
    StacksDrop(tasks, HeapSpec.LiveBlocks(h), i);
    HeapSpec.ReleaseEffect(h, b);
    HeapRuns.ReleasePages(h, b, STACK_SIZE);
  }

  lemma CleanupTasks(tasks: seq<Task>, current: nat, nextId: nat, v: Vm, i: nat)
    requires TasksOk(tasks, current, nextId, v.kdir) && TaskSpaces(tasks, v)
    requires 1 <= i < |tasks| && i != current && tasks[i].state == Zombie
    ensures TasksOk(tasks[i := NO_TASK], current, nextId, v.kdir)
    ensures TaskSpaces(tasks[i := NO_TASK], VmWithout(v, tasks[i]))
    ensures tasks[i].space != v.kdir ==> tasks[i].space != tasks[current].space
  {
  }

  lemma KernelHalfWithout(base: Base, v: Vm, t: Task)
    requires KernelHalf(base, v)
    ensures KernelHalf(base, VmWithout(v, t))
  {
    if t.space != v.kdir { KernelHalfDrop(base, v, t.space); }
  }

  /** Reaping one dead task other than the current one. */
  lemma CleanupKeeps(base: Base, s: Sys, i: nat)
    requires SysInv(base, s) && 1 <= i < |s.tasks| && i != s.current && s.tasks[i].state == Zombie
    ensures SysInv(base, Cleanup(s, i))
    ensures Cleanup(s, i).mem.v == VmWithout(s.mem.v, s.tasks[i])
  {
    CleanupTasks(s.tasks, s.current, s.nextId, s.mem.v, i);
    CleanupMem(s.mem, Claims(base.reserved, s.h.pages, {}), s.tasks[i]);
    CleanupHeap(s.h, s.tasks, i);
    KernelHalfWithout(base, s.mem.v, s.tasks[i]);
  }

  // ---------------------------------------------------------------- what others see

  /** Task `t` became `t'` without anyone but the scheduler noticing: it was parked or
      resumed, or it was dead and is gone. */
  predicate Unnoticed(t: Task, t': Task)
  {
    if Live(t) then Live(t') && t' == t.(state := t'.state)
    else t' == t || (t.state == Zombie && t' == NO_TASK)
  }

  /** `d` was the space of a dead task that is gone now. */
  predicate DeadSpace(tasks: seq<Task>, tasks': seq<Task>, d: nat)
    requires |tasks| == |tasks'|
  {
    exists i :: 0 <= i < |tasks| && tasks[i].state == Zombie && tasks[i].space == d && tasks'[i] == NO_TASK
  }

  /** Space `d` is unchanged, unless it was the space of a dead task that is gone now: then
      it is gone too. */
  predicate SpaceQuiet(v: Vm, v': Vm, tasks: seq<Task>, tasks': seq<Task>, d: nat)
    requires |tasks| == |tasks'|
  {
    if d in v.spaces && !(d != v.kdir && DeadSpace(tasks, tasks', d))
    then d in v'.spaces && v'.spaces[d] == v.spaces[d]
    else d !in v'.spaces
  }

  ghost predicate Quiet(s: Sys, s': Sys)
  {
    && |s'.tasks| == |s.tasks| && s'.nextId == s.nextId && s'.mem.data == s.mem.data
    && s'.h.pages == s.h.pages && s'.mem.v.kdir == s.mem.v.kdir
    && (forall i :: 0 <= i < |s.tasks| ==> Unnoticed(s.tasks[i], s'.tasks[i]))
    && (forall d :: SpaceQuiet(s.mem.v, s'.mem.v, s.tasks, s'.tasks, d))
  }

  lemma DeadSpaceCompose(t0: seq<Task>, t1: seq<Task>, t2: seq<Task>, d: nat)
    requires |t0| == |t1| == |t2|
    requires forall i :: 0 <= i < |t0| ==> Unnoticed(t0[i], t1[i])
    requires forall i :: 0 <= i < |t0| ==> Unnoticed(t1[i], t2[i])
    ensures DeadSpace(t0, t2, d) <==> DeadSpace(t0, t1, d) || DeadSpace(t1, t2, d)
  {
    if DeadSpace(t0, t1, d) {
      var i :| 0 <= i < |t0| && t0[i].state == Zombie && t0[i].space == d && t1[i] == NO_TASK;
      assert Unnoticed(t1[i], t2[i]);
      assert t2[i] == NO_TASK;
    }
    if DeadSpace(t1, t2, d) {
      var i :| 0 <= i < |t1| && t1[i].state == Zombie && t1[i].space == d && t2[i] == NO_TASK;
      assert Unnoticed(t0[i], t1[i]);
      assert t0[i] == t1[i];
    }
    if DeadSpace(t0, t2, d) {
      var i :| 0 <= i < |t0| && t0[i].state == Zombie && t0[i].space == d && t2[i] == NO_TASK;
      assert Unnoticed(t0[i], t1[i]) && Unnoticed(t1[i], t2[i]);
    }
  }

  lemma QuietCompose(s0: Sys, s1: Sys, s2: Sys)
    requires Quiet(s0, s1) && Quiet(s1, s2)
    ensures Quiet(s0, s2)
  {
    forall i | 0 <= i < |s0.tasks| ensures Unnoticed(s0.tasks[i], s2.tasks[i]) {
      assert Unnoticed(s0.tasks[i], s1.tasks[i]) && Unnoticed(s1.tasks[i], s2.tasks[i]);
    }
    forall d ensures SpaceQuiet(s0.mem.v, s2.mem.v, s0.tasks, s2.tasks, d) {
      assert SpaceQuiet(s0.mem.v, s1.mem.v, s0.tasks, s1.tasks, d);
      assert SpaceQuiet(s1.mem.v, s2.mem.v, s1.tasks, s2.tasks, d);
      DeadSpaceCompose(s0.tasks, s1.tasks, s2.tasks, d);
    }
  }

  lemma QuietSame(s: Sys)
    ensures Quiet(s, s)
  {
    forall d ensures DeadSpace(s.tasks, s.tasks, d) ==> false {}
  }

  lemma CleanupQuiet(s: Sys, i: nat)
    requires i < |s.tasks| && s.tasks[i].state == Zombie && s.tasks[i].space in s.mem.v.spaces
    requires Cleanup(s, i).mem.v == VmWithout(s.mem.v, s.tasks[i]) && Cleanup(s, i).h.pages == s.h.pages
    ensures Quiet(s, Cleanup(s, i))
  {
    var s' := Cleanup(s, i);
    forall d ensures DeadSpace(s.tasks, s'.tasks, d) <==> d == s.tasks[i].space {
      if d == s.tasks[i].space {
        assert s'.tasks[i] == NO_TASK;
      }
    }
  }

  /** One iteration of the loop of `reap_zombies`, from `s` to the returned state. */
  lemma ReapStep(base: Base, s: Sys, i: nat) returns (s': Sys)
    requires SysInv(base, s) && 1 <= i < |s.tasks|
    ensures SysInv(base, s') && Quiet(s, s') && Reap(s, i) == Reap(s', i + 1)
  {
    hide MemInv; hide StacksOk; hide HeapSmall; hide KernelHalf; hide HeapSpec.HeapInv; hide HeapSpec.Release; hide Destroy;
    if i != s.current && s.tasks[i].state == Zombie {
      s' := Cleanup(s, i);
      CleanupKeeps(base, s, i);
      CleanupHeap(s.h, s.tasks, i);
      CleanupQuiet(s, i);
    } else {
      s' := s;
      QuietSame(s);
    }
  }

  lemma {:induction false} ReapLoop(base: Base, s: Sys, i: nat) returns (r: Sys)
    requires SysInv(base, s) && 1 <= i
    ensures r == Reap(s, i) && SysInv(base, r) && Quiet(s, r)
    decreases |s.tasks| - i
  {
    hide SysInv;
    if i < |s.tasks| {
      var s' := ReapStep(base, s, i);
      r := ReapLoop(base, s', i + 1);
      QuietCompose(s, s', r);
    } else {
      r := s;
      QuietSame(s);
    }
  }

  /** `reap_zombies` keeps the system sound, and only dead tasks and their spaces go. */
  lemma ReapKeeps(base: Base, s: Sys, i: nat)
    requires SysInv(base, s) && 1 <= i
    ensures SysInv(base, Reap(s, i)) && Quiet(s, Reap(s, i))
  {
    var r := ReapLoop(base, s, i);
  }

  /** Each dead task but the current one is reaped, and nothing else is. */
  lemma {:induction false} ReapTasks(s: Sys, i: nat, j: nat)
    requires j < |s.tasks|
    ensures Reap(s, i).tasks[j] ==
            if i <= j && j != s.current && s.tasks[j].state == Zombie then NO_TASK else s.tasks[j]
    decreases |s.tasks| - i
  {
    if i < |s.tasks| {
      ReapTasks(if i != s.current && s.tasks[i].state == Zombie then Cleanup(s, i) else s, i + 1, j);
    }
  }

  // ---------------------------------------------------------------- switching

  lemma SwitchTasks(tasks: seq<Task>, current: nat, nextId: nat, kdir: nat, next: nat)
    requires TasksOk(tasks, current, nextId, kdir) && next < |tasks| && tasks[next].state == Runnable
    ensures var was := tasks[current];
      var parked := if was.state == Running then tasks[current := was.(state := Runnable)] else tasks;
      var tasks' := parked[next := parked[next].(state := Running)];
      && TasksOk(tasks', next, nextId, kdir) && tasks'[next].state == Running
      && |tasks'| == |tasks| && parked[next].space == tasks[next].space
      && (forall i :: 0 <= i < |tasks| ==> Unnoticed(tasks[i], tasks'[i]) && (tasks[i].state == Zombie ==> tasks'[i] == tasks[i]))
  {
  }

  lemma TaskSpacesSame(tasks: seq<Task>, tasks': seq<Task>, v: Vm, v': Vm)
    requires TaskSpaces(tasks, v) && |tasks'| == |tasks| && v'.kdir == v.kdir && v'.spaces == v.spaces
    requires forall i :: 0 <= i < |tasks| ==> Unnoticed(tasks[i], tasks'[i])
    requires forall i :: 0 <= i < |tasks| ==> tasks[i].state == Zombie ==> tasks'[i] == tasks[i]
    ensures TaskSpaces(tasks', v')
  {
    forall i | 0 <= i < |tasks|
      ensures tasks'[i].space == tasks[i].space && (tasks'[i].state == Unused <==> tasks[i].state == Unused)
      ensures tasks'[i].state == Zombie <==> tasks[i].state == Zombie {
      assert Unnoticed(tasks[i], tasks'[i]);
    }
  }

  lemma LoadMem(m: Mem, c: Claims, d: nat)
    requires MemInv(m, c) && d in m.v.spaces
    ensures MemInv(m.(v := Load(m.v, d)), c)
  {
    LoadKeepsInv(m.v, d);
    SameFrames(m.p, c, m.v, c, Load(m.v, d));
  }

  lemma KernelHalfSame(base: Base, v: Vm, v': Vm)
    requires KernelHalf(base, v) && v'.kdir == v.kdir && v'.spaces == v.spaces
    ensures KernelHalf(base, v')
  {
  }

  lemma SwitchToKeeps(base: Base, s: Sys, next: nat)
    requires SysInv(base, s) && next < |s.tasks| && s.tasks[next].state == Runnable
    ensures var s' := SwitchTo(s, next);
      SysInv(base, s') && Quiet(s, s') && s'.tasks[s'.current].state == Running
  {
    hide TaskSpaces; hide StacksOk; hide KernelHalf; hide MemInv; hide HeapSpec.LiveBlocks; hide StackSet;
    var s' := SwitchTo(s, next);
    SwitchTasks(s.tasks, s.current, s.nextId, s.mem.v.kdir, next);
    TaskSpacesSame(s.tasks, s'.tasks, s.mem.v, s'.mem.v);
    StacksSame(s.tasks, s'.tasks, HeapSpec.LiveBlocks(s.h));
    LoadMem(s.mem, Claims(base.reserved, s.h.pages, {}), s.tasks[next].space);
    KernelHalfSame(base, s.mem.v, s'.mem.v);
    forall d ensures !DeadSpace(s.tasks, s'.tasks, d) {}
  }

  /** A dead current task always finds somewhere to go: task 0 is runnable then. */
  lemma SomeoneRunnable(s: Sys)
    requires TasksOk(s.tasks, s.current, s.nextId, s.mem.v.kdir) && s.tasks[s.current].state == Zombie
    ensures NextDistance(s.tasks, s.current, 1) <= |s.tasks|
  {
    var n := |s.tasks|;
    assert s.current != 0;
    assert (s.current + (n - s.current)) % n == 0;
    assert s.tasks[Around(n, s.current, n - s.current)].state == Runnable;
  }

  /** `sched_yield` keeps the system sound and always ends with a running current task, so
      a dead task is never resumed. */
  lemma YieldKeeps(base: Base, s: Sys)
    requires SysInv(base, s)
    ensures SysInv(base, Yield(s)) && Quiet(s, Yield(s))
    ensures Yield(s).tasks[Yield(s).current].state == Running
  {
    ReapKeeps(base, s, 1);
    var r := Reap(s, 1);
    ReapTasks(s, 1, s.current);
    var k := NextDistance(r.tasks, r.current, 1);
    if k <= |r.tasks| {
      SwitchToKeeps(base, r, Around(|r.tasks|, r.current, k));
    } else {
      QuietSame(r);
      if r.tasks[r.current].state == Zombie {
        SomeoneRunnable(r);
      }
    }
    QuietCompose(s, r, Yield(s));
  }

  // ---------------------------------------------------------------- creating a thread

  function StackSetTo(tasks: seq<Task>, k: nat): set<HeapSpec.Block>
    requires k <= |tasks|
  {
    set i | 1 <= i < k && tasks[i].state != Unused :: StackBlock(tasks[i])
  }

  lemma {:induction false} StackCount(tasks: seq<Task>, k: nat, hole: nat)
    requires 1 <= k <= |tasks| && 1 <= hole < |tasks| && tasks[hole].state == Unused
    ensures |StackSetTo(tasks, k)| <= k - 1 - (if hole < k then 1 else 0)
    decreases k
  {
    if k == 1 {
      assert StackSetTo(tasks, k) == {};
    } else {
      StackCount(tasks, k - 1, hole);
      var before := StackSetTo(tasks, k - 1);
      if tasks[k - 1].state == Unused {
        assert StackSetTo(tasks, k) == before;
      } else {
        assert StackSetTo(tasks, k) == before + {StackBlock(tasks[k - 1])};
      }
    }
  }

  /** One more stack: the heap grows by at most one page, and never beyond one page per slot
      other than slot 0. */
  lemma StackAlloc(p: Pmm, h: HeapSpec.Heap, tasks: seq<Task>, hole: nat, t: Task)
    requires HeapSpec.HeapInv(h) && h.pages <= p.used && HeapSmall(h, |tasks|)
    requires StacksOk(tasks, HeapSpec.LiveBlocks(h)) && 1 <= hole < |tasks| && tasks[hole].state == Unused
    requires t.state != Unused && t.stack == HeapSpec.Malloc(p, h, STACK_SIZE).2 && t.stack != 0
    ensures var (p', h', stack) := HeapSpec.Malloc(p, h, STACK_SIZE);
      && HeapSpec.HeapInv(h') && HeapSmall(h', |tasks|)
      && StacksOk(tasks[hole := t], HeapSpec.LiveBlocks(h'))
  {
    hide HeapSpec.Tiled; hide HeapSpec.Malloc; hide HeapSpec.FirstFit; hide HeapRuns.Potential; hide HeapSpec.HeapInv;
    hide HeapRuns.LiveSized; hide HeapSpec.LiveBlocks; hide HeapSpec.NeedsPage;
    var (p', h', stack) := HeapSpec.Malloc(p, h, STACK_SIZE);
    assert HeapSpec.AlignedSize(STACK_SIZE) == STACK_SIZE;
    HeapSpec.MallocEffect(p, h, STACK_SIZE);
    HeapRuns.MallocPages(p, h, STACK_SIZE);
    StackCount(tasks, |tasks|, hole);
    assert StackSetTo(tasks, |tasks|) == StackSet(tasks);
    var b := HeapSpec.NewBlock(stack, STACK_SIZE);
    assert b == StackBlock(t);
    HeapRuns.FreshBlock(h, stack, STACK_SIZE);
    StacksAdd(tasks, HeapSpec.LiveBlocks(h), hole, t);
  }

  lemma StackFrames(m: Mem, reserved: set<nat>, h: HeapSpec.Heap)
    requires MemInv(m, Claims(reserved, h.pages, {})) && HeapSpec.HeapInv(h) && h.pages <= m.p.used
    ensures var (p', h', stack) := HeapSpec.Malloc(m.p, h, STACK_SIZE);
      MemInv(m.(p := p'), Claims(reserved, h'.pages, {}))
  {
    var c := Claims(reserved, h.pages, {});
    HeapSpec.MallocEffect(m.p, h, STACK_SIZE);
    GrowHeap(m.p, c, m.v);
    var (p', h', stack) := HeapSpec.Malloc(m.p, h, STACK_SIZE);
    if stack != 0 && HeapSpec.NeedsPage(h, STACK_SIZE) {
      assert c.(heap := c.heap + {AllocDirect(m.p).1}) == Claims(reserved, h'.pages, {});
    }
  }

  lemma HeapPagesUsed(m: Mem, reserved: set<nat>, pages: set<nat>)
    requires MemInv(m, Claims(reserved, pages, {}))
    ensures pages <= m.p.used
  {
    forall f | f in pages ensures f in m.p.used {
      assert FrameOf(Claims(reserved, pages, {}), m.v, HeapPage(f)) == Some(f);
    }
  }

  lemma AddTask(tasks: seq<Task>, current: nat, nextId: nat, v: Vm, i: nat, t: Task)
    requires TasksOk(tasks, current, nextId, v.kdir) && TaskSpaces(tasks, v) && v.kdir in v.spaces
    requires 1 <= i < |tasks| && tasks[i].state == Unused
    requires t.state == Runnable && t.id == nextId && nextId >= 1 && t.space == v.kdir
    ensures TasksOk(tasks[i := t], current, nextId + 1, v.kdir) && TaskSpaces(tasks[i := t], v)
  {
  }

  /** The state after `kthread_create` filled slot `i` of `r`. */
  predicate SlotFilled(r: Sys, s': Sys, i: nat, ctl: Control)
  {
    && 1 <= i < |r.tasks| == |s'.tasks| && r.tasks[i] == NO_TASK
    && s'.tasks == r.tasks[i := Task(r.nextId, Runnable, r.mem.v.kdir, s'.tasks[i].stack, ctl)]
    && s'.mem.v == r.mem.v && s'.mem.data == r.mem.data
    && s'.current == r.current && s'.nextId == r.nextId + 1
  }

  lemma StartThreadKeeps(base: Base, r: Sys, ctl: Control)
    requires SysInv(base, r)
    ensures var (s', id) := StartThread(r, ctl);
      && SysInv(base, s')
      && (id == None ==> s' == r)
      && (id.Some? ==> id.value == r.nextId && SlotFilled(r, s', FirstUnused(r.tasks, 1), ctl))
  {
    hide StacksOk; hide KernelHalf; hide HeapSpec.LiveBlocks; hide StackSet; hide HeapSmall; hide TaskSpaces;
    hide SpaceOk; hide TlbOk; hide HeapSpec.HeapInv; hide Partition;
    var (s', id) := StartThread(r, ctl);
    var i := FirstUnused(r.tasks, 1);
    if id.Some? {
      HeapPagesUsed(r.mem, base.reserved, r.h.pages);
      StackAlloc(r.mem.p, r.h, r.tasks, i, s'.tasks[i]);
      StackFrames(r.mem, base.reserved, r.h);
      AddTask(r.tasks, r.current, r.nextId, r.mem.v, i, s'.tasks[i]);
    }
  }

  /** `kthread_create`: reaps first; then either nothing more changes, or one unused slot
      holds a runnable task with a fresh id, its own stack and the kernel directory. */
  lemma CreateThreadKeeps(base: Base, s: Sys, ctl: Control)
    requires SysInv(base, s)
    ensures var (s', id) := CreateThread(s, ctl);
      var r := Reap(s, 1);
      && SysInv(base, s') && Quiet(s, r)
      && (id == None ==> s' == r)
      && (id.Some? ==> id.value == s.nextId && SlotFilled(r, s', FirstUnused(r.tasks, 1), ctl))
  {
    ReapKeeps(base, s, 1);
    StartThreadKeeps(base, Reap(s, 1), ctl);
  }

  // ---------------------------------------------------------------- dying, adopting a space

  /** A task other than 0 may die once its space holds no pages. */
  lemma MarkZombieKeeps(base: Base, s: Sys)
    requires SysInv(base, s) && s.current != 0
    requires var d := s.tasks[s.current].space; d == s.mem.v.kdir || s.mem.v.spaces[d].leaves == map[]
    ensures SysInv(base, MarkZombie(s))
  {
    hide StacksOk; hide KernelHalf; hide MemInv; hide HeapSpec.LiveBlocks; hide StackSet; hide HeapSmall;
    StacksSame(s.tasks, MarkZombie(s).tasks, HeapSpec.LiveBlocks(s.h));
  }

  lemma AdoptTasks(tasks: seq<Task>, current: nat, nextId: nat, v: Vm, d: nat)
    requires TasksOk(tasks, current, nextId, v.kdir) && TaskSpaces(tasks, v) && current != 0
    requires tasks[current].state == Running && d in v.spaces
    requires forall i :: 0 <= i < |tasks| && tasks[i].state != Unused ==> tasks[i].space != d
    ensures var tasks' := tasks[current := tasks[current].(space := d)];
      TasksOk(tasks', current, nextId, v.kdir) && TaskSpaces(tasks', Load(v, d))
  {
  }

  lemma AdoptKeeps(base: Base, s: Sys, d: nat)
    requires SysInv(base, s) && s.current != 0 && s.tasks[s.current].state == Running
    requires d in s.mem.v.spaces
    requires forall i :: 0 <= i < |s.tasks| && s.tasks[i].state != Unused ==> s.tasks[i].space != d
    ensures SysInv(base, Adopt(s, d))
  {
    var s' := Adopt(s, d);
    AdoptTasks(s.tasks, s.current, s.nextId, s.mem.v, d);
    StacksSame(s.tasks, s'.tasks, HeapSpec.LiveBlocks(s.h));
    LoadMem(s.mem, Claims(base.reserved, s.h.pages, {}), d);
    KernelHalfSame(base, s.mem.v, s'.mem.v);
  }
}
