/**
 * `kernel/sched.c` on its task table.  The memory manager and the heap below it appear as
 * their states: `VmmImpl.Paging` and `HeapImpl.KernelHeap` refine the functions applied here.
 */
module SchedImpl {
  import opened Common
  import opened VmSpec
  import opened UserPages
  import opened SchedSpec
  import HeapSpec

  class Scheduler {
    const tasks: array<Task>
    var current: nat
    var nextId: nat
    var mem: Mem
    var heap: HeapSpec.Heap

    ghost predicate Valid()
      reads this
    {
      current < tasks.Length
    }

    ghost function State(): Sys
      reads this, tasks
    {
      Sys(mem, heap, tasks[..], current, nextId)
    }

    /** `sched_init`, over a memory manager and a heap that are already up. */
    constructor (size: nat, m: Mem, h: HeapSpec.Heap)
      requires size >= 1
      ensures Valid() && fresh(tasks)
      ensures State() == Sys(m, h, [Task(0, Running, m.v.kdir, 0, InKernel)] + seq(size - 1, _ => NO_TASK), 0, 1)
    {
      tasks := new Task[size](_ => NO_TASK);
      mem, heap, current, nextId := m, h, 0, 0;
      new;
      tasks[0] := Task(nextId, Running, mem.v.kdir, 0, InKernel);
      nextId := nextId + 1;
      assert tasks[..] == [Task(0, Running, m.v.kdir, 0, InKernel)] + seq(size - 1, _ => NO_TASK);
    }

    method CurrentTaskId() returns (id: nat)
      requires Valid()
      ensures id == State().tasks[State().current].id
    {
      id := tasks[current].id;
    }

    /** `task_cleanup`. */
    method CleanupTask(i: nat)
      requires Valid() && i < tasks.Length
      modifies this`mem, this`heap, tasks
      ensures Valid() && State() == Cleanup(old(State()), i)
    {
      hide Destroy; hide HeapSpec.Release;
      var t := tasks[i];
      tasks[i] := t.(id := 0, state := Unused, ctl := Idle);
      if tasks[i].space != 0 && tasks[i].space != mem.v.kdir {
        var (p, v) := Destroy(mem.p, mem.v, tasks[i].space);
        mem := mem.(p := p, v := v);
      }
      tasks[i] := tasks[i].(space := 0);
      if tasks[i].stack != 0 {
        heap := HeapSpec.Release(heap, tasks[i].stack);
        tasks[i] := tasks[i].(stack := 0);
      }
      assert tasks[..] == old(tasks[..])[i := NO_TASK];
    }

    /** `reap_zombies`. */
    method ReapZombies()
      requires Valid()
      modifies this`mem, this`heap, tasks
      ensures Valid() && State() == Reap(old(State()), 1)
    {
      hide Cleanup;
      for i := 1 to tasks.Length
        invariant Valid() && Reap(State(), i) == Reap(old(State()), 1)
      {
        if i == current || tasks[i].state != Zombie { continue; }
        CleanupTask(i);
      }
    }

    /** `sched_yield` up to the context switch; the caller goes on when it is switched to. */
    method SchedYield()
      requires Valid()
      modifies this, tasks
      ensures Valid() && State() == Yield(old(State()))
    {
      hide Reap; hide Load;
      ReapZombies();
      ghost var r := State();
      for i := 1 to tasks.Length + 1
        invariant Valid() && State() == r
        invariant NextDistance(r.tasks, r.current, 1) == NextDistance(r.tasks, r.current, i)
      {
        var idx := Around(tasks.Length, current, i);
        if tasks[idx].state == Runnable {
          SwitchInto(idx);
          return;
        }
      }
    }

    /** The switching half of `sched_yield`. */
    method SwitchInto(idx: nat)
      requires Valid() && idx < tasks.Length
      modifies this, tasks
      ensures Valid() && State() == SwitchTo(old(State()), idx)
    {
      if tasks[current].state == Running {
        tasks[current] := tasks[current].(state := Runnable);
      }
      tasks[idx] := tasks[idx].(state := Running);
      current := idx;
      mem := mem.(v := Load(mem.v, tasks[idx].space));
    }

    /** `kthread_create`. */
    method KthreadCreate(ctl: Control) returns (id: Option<nat>)
      requires Valid()
      modifies this, tasks
      ensures Valid() && (State(), id) == CreateThread(old(State()), ctl)
    {
      hide Reap; hide HeapSpec.Malloc;
      ReapZombies();
      ghost var r := State();
      for i := 1 to tasks.Length
        invariant Valid() && State() == r && FirstUnused(r.tasks, 1) == FirstUnused(r.tasks, i)
      {
        if tasks[i].state == Unused {
          var (p, h, stack) := HeapSpec.Malloc(mem.p, heap, STACK_SIZE);
          if stack == 0 { return None; }
          mem, heap := mem.(p := p), h;
          tasks[i] := Task(nextId, Runnable, mem.v.kdir, stack, ctl);
          nextId := nextId + 1;
          return Some(tasks[i].id);
        }
      }
      return None;
    }

    /** `kthread_exit`; false is the panic of task 0. */
    method KthreadExit() returns (ok: bool)
      requires Valid()
      modifies this, tasks
      ensures Valid() && ok == (old(current) != 0)
      ensures State() == if ok then Yield(MarkZombie(old(State()))) else old(State())
    {
      if current == 0 { return false; }
      tasks[current] := tasks[current].(state := Zombie, ctl := Idle);
      SchedYield();
      return true;
    }

    /** `sched_set_current_address_space`. */
    method SetCurrentAddressSpace(d: nat) returns (ok: bool)
      requires Valid()
      modifies this`mem, tasks
      ensures Valid() && ok == (current != 0 && d != 0)
      ensures State() == if ok then Adopt(old(State()), d) else old(State())
    {
      if current == 0 || d == 0 { return false; }
      tasks[current] := tasks[current].(space := d);
      mem := mem.(v := Load(mem.v, d));
      return true;
    }

    /** Where the current task goes on. */
    method Resume(ctl: Control)
      requires Valid()
      modifies tasks
      ensures Valid() && State() == old(State()).(tasks := old(tasks[..])[current := old(tasks[..])[current].(ctl := ctl)])
    {
      tasks[current] := tasks[current].(ctl := ctl);
    }
  }
}
