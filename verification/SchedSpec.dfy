/**
 * The cooperative scheduler together with the memory it manages, as a value.
 * `SchedImpl.Scheduler` refines these functions.
 */
module SchedSpec {
  import opened Common
  import opened VmSpec
  import opened Owners
  import opened UserPages
  import HeapSpec
  import HeapRuns

  const STACK_SIZE: nat := 2048

  datatype TaskState = Unused | Runnable | Running | Zombie

  /** Where a task is while it is not running: its entry point, or the place of its last
      yield.  This is what the saved stack pointer and the entry field encode. */
  datatype Control = Idle | EnterUser | EnterKernel | InUser | InWait(pid: nat, slot: nat) | InKernel

  datatype Task = Task(id: nat, state: TaskState, space: nat, stack: nat, ctl: Control)

  const NO_TASK := Task(0, Unused, 0, 0, Idle)

  /** Fixed at boot: frames never handed out, and the kernel's directory and page tables. */
  datatype Base = Base(reserved: set<nat>, kdir: nat, kernel: Space)

  datatype Sys = Sys(mem: Mem, h: HeapSpec.Heap, tasks: seq<Task>, current: nat, nextId: nat)

  predicate Live(t: Task) { t.state == Runnable || t.state == Running }

  // ---------------------------------------------------------------- operations

  /** `task_cleanup`. */
  function Cleanup(s: Sys, i: nat): Sys
    requires i < |s.tasks|
  {
    var t := s.tasks[i];
    var (p, v) := if t.space != 0 && t.space != s.mem.v.kdir then Destroy(s.mem.p, s.mem.v, t.space)
                  else (s.mem.p, s.mem.v);
    s.(tasks := s.tasks[i := NO_TASK], mem := s.mem.(p := p, v := v),
       h := if t.stack != 0 then HeapSpec.Release(s.h, t.stack) else s.h)
  }

  /** `reap_zombies` from slot `i` on. */
  function Reap(s: Sys, i: nat): (r: Sys)
    ensures |r.tasks| == |s.tasks| && r.current == s.current && r.nextId == s.nextId
    decreases |s.tasks| - i
  {
    if i >= |s.tasks| then s
    else Reap(if i != s.current && s.tasks[i].state == Zombie then Cleanup(s, i) else s, i + 1)
  }

  /** The slot at distance `j` from `current`, going round the table. */
  function Around(n: nat, current: nat, j: nat): (i: nat)
    requires n > 0
    ensures i < n
  {
    (current + j) % n
  }

  /** First distance from `i` on at which a runnable task sits, going round from `current`;
      one more than the table size if there is none. */
  function NextDistance(tasks: seq<Task>, current: nat, i: nat): (k: nat)
    requires 1 <= i <= |tasks| + 1 && tasks != []
    ensures i <= k <= |tasks| + 1
    ensures k <= |tasks| ==> tasks[Around(|tasks|, current, k)].state == Runnable
    ensures forall j :: i <= j < k ==> tasks[Around(|tasks|, current, j)].state != Runnable
    decreases |tasks| + 1 - i
  {
    if i > |tasks| || tasks[Around(|tasks|, current, i)].state == Runnable then i
    else NextDistance(tasks, current, i + 1)
  }

  /** The switching half of `sched_yield`; the context switch resumes the target where it
      last yielded. */
  function SwitchTo(s: Sys, next: nat): Sys
    requires s.current < |s.tasks| && next < |s.tasks|
  {
    var was := s.tasks[s.current];
    var parked := if was.state == Running then s.tasks[s.current := was.(state := Runnable)] else s.tasks;
    s.(tasks := parked[next := parked[next].(state := Running)], current := next,
       mem := s.mem.(v := Load(s.mem.v, parked[next].space)))
  }

  function Switch(s: Sys): Sys
    requires s.current < |s.tasks|
  {
    var k := NextDistance(s.tasks, s.current, 1);
    if k > |s.tasks| then s else SwitchTo(s, Around(|s.tasks|, s.current, k))
  }

  /** `sched_yield`. */
  function Yield(s: Sys): Sys
    requires s.current < |s.tasks|
  {
    Switch(Reap(s, 1))
  }

  /** First unused slot at or after `i`; the table size if none. */
  function FirstUnused(tasks: seq<Task>, i: nat): (k: nat)
    requires i <= |tasks|
    ensures i <= k <= |tasks|
    ensures k < |tasks| ==> tasks[k].state == Unused
    ensures forall j :: i <= j < k ==> tasks[j].state != Unused
    decreases |tasks| - i
  {
    if i == |tasks| || tasks[i].state == Unused then i else FirstUnused(tasks, i + 1)
  }

  /** `kthread_create` after the reaping: the id of the new task, or nothing. */
  function StartThread(r: Sys, ctl: Control): (Sys, Option<nat>)
    requires 1 <= |r.tasks|
  {
    var i := FirstUnused(r.tasks, 1);
    if i == |r.tasks| then (r, None)
    else
      var (p, h, stack) := HeapSpec.Malloc(r.mem.p, r.h, STACK_SIZE);
      if stack == 0 then (r, None)
      else
        (r.(mem := r.mem.(p := p), h := h, nextId := r.nextId + 1,
            tasks := r.tasks[i := Task(r.nextId, Runnable, r.mem.v.kdir, stack, ctl)]),
         Some(r.nextId))
  }

  /** `kthread_create`. */
  function CreateThread(s: Sys, ctl: Control): (Sys, Option<nat>)
    requires 1 <= |s.tasks|
  {
    StartThread(Reap(s, 1), ctl)
  }

  /** Marking the running task dead; `kthread_exit` then yields. */
  function MarkZombie(s: Sys): Sys
    requires s.current < |s.tasks|
  {
    s.(tasks := s.tasks[s.current := s.tasks[s.current].(state := Zombie, ctl := Idle)])
  }

  /** `sched_set_current_address_space` for a task other than 0 and a nonzero directory. */
  function Adopt(s: Sys, d: nat): Sys
    requires s.current < |s.tasks|
  {
    s.(tasks := s.tasks[s.current := s.tasks[s.current].(space := d)], mem := s.mem.(v := Load(s.mem.v, d)))
  }

  // ---------------------------------------------------------------- invariant

  /** The state machine of the task table: one task is running and it is the current one
      (it may already be marked dead while it is yielding for the last time); task 0 never
      dies and keeps the kernel directory. */
  ghost predicate TasksOk(tasks: seq<Task>, current: nat, nextId: nat, kdir: nat)
  {
    && current < |tasks| && nextId >= 1
    && tasks[0].id == 0 && Live(tasks[0]) && tasks[0].space == kdir && tasks[0].stack == 0 && tasks[0].ctl == InKernel
    && (forall i :: 1 <= i < |tasks| ==>
          if tasks[i].state == Unused then tasks[i] == NO_TASK else 1 <= tasks[i].id < nextId)
    && (forall i, j :: 0 <= i < j < |tasks| && tasks[i].state != Unused && tasks[j].state != Unused ==>
          tasks[i].id != tasks[j].id)
    && (forall i :: 0 <= i < |tasks| && i != current ==> tasks[i].state != Running)
    && (tasks[current].state == Running || tasks[current].state == Zombie)
  }

  /** User directories of tasks are live and never shared between tasks; a dead task's space
      has no pages left. */
  ghost predicate TaskSpaces(tasks: seq<Task>, v: Vm)
  {
    && (forall i :: 0 <= i < |tasks| && tasks[i].state != Unused ==>
          && tasks[i].space in v.spaces
          && (tasks[i].state == Zombie && tasks[i].space != v.kdir ==> v.spaces[tasks[i].space].leaves == map[]))
    && (forall i, j | 0 <= i < j < |tasks| && tasks[i].state != Unused && tasks[j].state != Unused ::
          tasks[i].space == tasks[j].space ==> tasks[i].space == v.kdir)
  }

  /** The heap block behind a task's stack. */
  function StackBlock(t: Task): HeapSpec.Block
  {
    HeapSpec.Block(if t.stack >= HeapSpec.HEADER then t.stack - HeapSpec.HEADER else 0, STACK_SIZE, false)
  }

  function StackSet(tasks: seq<Task>): set<HeapSpec.Block>
  {
    set i | 1 <= i < |tasks| && tasks[i].state != Unused :: StackBlock(tasks[i])
  }

  /** Stacks of existing tasks are exactly the live heap blocks, one each. */
  ghost predicate StacksOk(tasks: seq<Task>, live: set<HeapSpec.Block>)
  {
    && (forall i :: 1 <= i < |tasks| && tasks[i].state != Unused ==> tasks[i].stack >= HeapSpec.HEADER)
    && (forall i, j :: 1 <= i < j < |tasks| && tasks[i].state != Unused && tasks[j].state != Unused ==>
          tasks[i].stack != tasks[j].stack)
    && live == StackSet(tasks)
  }

  /** With only thread stacks in it the heap needs at most one page per task slot but one. */
  ghost predicate HeapSmall(h: HeapSpec.Heap, slots: nat)
  {
    && HeapRuns.LiveSized(h, STACK_SIZE)
    && HeapRuns.Potential(h, STACK_SIZE) >= |h.pages|
    && |h.pages| + 1 <= slots
  }

  /** The kernel's own map: the direct map, and nothing user-accessible. */
  ghost predicate KernelMap(k: Space)
  {
    && (forall x :: x in k.leaves ==> !k.leaves[x].user)
    && (forall f: nat :: f < DIRECT_PAGES ==>
          DirectPage(f) in k.leaves && k.leaves[DirectPage(f)] == Mapping(f, true, false))
  }

  /** The space has writable entries for the four tables of the direct map. */
  ghost predicate HasDirect(s: Space)
  {
    forall i :: KERNEL_PDE <= i < KERNEL_PDE + 4 ==> i in s.tables && s.tables[i].writable
  }

  /** The kernel's space keeps the tables of boot in place, whatever it maps besides. */
  ghost predicate BootTables(boot: Space, k: Space)
  {
    forall i :: i in boot.tables ==> i in k.tables && k.tables[i].frame == boot.tables[i].frame
  }

  /** The kernel's space may grow and shrink beside the direct map; every space reaches the
      direct map. */
  ghost predicate KernelHalf(base: Base, v: Vm)
  {
    && v.kdir == base.kdir && base.kdir in v.spaces
    && BootTables(base.kernel, v.spaces[base.kdir]) && KernelMap(v.spaces[base.kdir])
    && (forall d :: d in v.spaces ==> HasDirect(v.spaces[d]))
  }

  ghost predicate SysInv(base: Base, s: Sys)
  {
    && MemInv(s.mem, Claims(base.reserved, s.h.pages, {}))
    && HeapSpec.HeapInv(s.h)
    && TasksOk(s.tasks, s.current, s.nextId, s.mem.v.kdir)
    && TaskSpaces(s.tasks, s.mem.v)
    && StacksOk(s.tasks, HeapSpec.LiveBlocks(s.h))
    && HeapSmall(s.h, |s.tasks|)
    && KernelHalf(base, s.mem.v)
    && s.mem.v.cr3 == s.tasks[s.current].space
  }
}
