/** What holds of the process table, and between it, the tasks and the address spaces, in
    every reachable state. */
module ProcInv {
  import opened Common
  import opened Archive
  import opened VmSpec
  import opened UserPages
  import opened SchedSpec
  import opened Machine

  /** A record that holds an address space. */
  predicate Owning(q: Process) { q.state == Created || q.state == Active }

  // ---------------------------------------------------------------- the table itself

  predicate HasActive(procs: seq<Process>, pid: nat)
  {
    exists j :: 0 <= j < |procs| && procs[j].state == Active && procs[j].pid == pid
  }

  /** A vacant record is zeroed; an exited one holds nothing but its status and has a parent. */
  predicate RecordOk(q: Process, nextPid: nat, nextId: nat)
  {
    && (q.state == Vacant ==> q == NO_PROC)
    && (q.state != Vacant ==> 1 <= q.pid < nextPid && q.parent < q.pid && 1 <= q.taskId < nextId)
    && (q.state == Exited ==> q.space == 0 && q.pages == [] && q.parent != 0)
    && (q.state == Created ==> q.pages == [])
    && IsCString(q.path)
  }

  /** Pids and task ids are unique; parents form a forest (a parent's pid is below its
      child's) and every parent named is a running process, able to collect. */
  ghost predicate TableOk(procs: seq<Process>, nextPid: nat, nextId: nat)
  {
    && nextPid >= 1
    && (forall s :: 0 <= s < |procs| ==> RecordOk(procs[s], nextPid, nextId))
    && (forall s, t :: 0 <= s < t < |procs| && procs[s].state != Vacant && procs[t].state != Vacant ==>
          procs[s].pid != procs[t].pid && procs[s].taskId != procs[t].taskId)
    && (forall s {:trigger HasActive(procs, procs[s].parent)} ::
          0 <= s < |procs| && procs[s].state != Vacant && procs[s].parent != 0 ==> HasActive(procs, procs[s].parent))
  }

  // ---------------------------------------------------------------- records and tasks

  predicate UserControl(c: Control) { c == EnterUser || c == InUser || c.InWait? }

  /** The live task `t` is the one the record in slot `s` names, at the right place and in the
      right address space. */
  predicate Fits(t: Task, q: Process, s: nat, kdir: nat)
  {
    || (q.state == Created && t.ctl == EnterUser && t.space == kdir)
    || (q.state == Active && t.space == q.space && (t.ctl == InUser || (t.ctl.InWait? && t.ctl.slot == s)))
  }

  predicate HasTask(tasks: seq<Task>, q: Process)
  {
    exists i :: 1 <= i < |tasks| && Live(tasks[i]) && tasks[i].id == q.taskId
  }

  predicate HasRecord(procs: seq<Process>, t: Task)
  {
    exists s :: 0 <= s < |procs| && procs[s].state != Vacant && procs[s].taskId == t.id
  }

  /** Every running record has its task, every user task finds its record, and a task that
      matches a record by id is where that record says it is. */
  ghost predicate LinkOk(procs: seq<Process>, tasks: seq<Task>, kdir: nat)
  {
    && (forall s {:trigger HasTask(tasks, procs[s])} ::
          0 <= s < |procs| && Owning(procs[s]) ==> HasTask(tasks, procs[s]))
    && (forall i {:trigger HasRecord(procs, tasks[i])} ::
          1 <= i < |tasks| && Live(tasks[i]) && UserControl(tasks[i].ctl) ==> HasRecord(procs, tasks[i]))
    && (forall s, i {:trigger procs[s], tasks[i]}
          | 0 <= s < |procs| && 0 <= i < |tasks| && procs[s].state != Vacant && Live(tasks[i]) ::
          tasks[i].id == procs[s].taskId ==> Fits(tasks[i], procs[s], s, kdir))
    && (forall i :: 1 <= i < |tasks| && Live(tasks[i]) && !UserControl(tasks[i].ctl) ==>
          tasks[i].space == kdir && tasks[i].ctl != Idle)
  }

  // ---------------------------------------------------------------- address spaces

  predicate HeldBy(procs: seq<Process>, tasks: seq<Task>, d: nat)
  {
    || (exists s :: 0 <= s < |procs| && Owning(procs[s]) && procs[s].space == d)
    || (exists i :: 0 <= i < |tasks| && tasks[i].state == Zombie && tasks[i].space == d)
  }

  ghost predicate RecordSpaceOk(q: Process, v: Vm)
  {
    && q.space in v.spaces && q.space != v.kdir && q.space != 0
    && PagesMatch(v.spaces[q.space].leaves, q.pages)
  }

  /** Every user space is held by exactly one record or one dead task; a record's page list
      is the list of its mapped pages; only a running record's own task uses its space. */
  ghost predicate SpacesOk(procs: seq<Process>, tasks: seq<Task>, v: Vm)
  {
    && (forall s :: 0 <= s < |procs| && Owning(procs[s]) ==> RecordSpaceOk(procs[s], v))
    && (forall s, t :: 0 <= s < t < |procs| && Owning(procs[s]) && Owning(procs[t]) ==>
          procs[s].space != procs[t].space)
    && (forall s, i {:trigger procs[s], tasks[i]}
          | 0 <= s < |procs| && 0 <= i < |tasks| && Owning(procs[s]) && tasks[i].state != Unused ::
          tasks[i].space == procs[s].space ==>
            procs[s].state == Active && Live(tasks[i]) && tasks[i].id == procs[s].taskId)
    && (forall d {:trigger HeldBy(procs, tasks, d)} :: d in v.spaces && d != v.kdir ==> HeldBy(procs, tasks, d))
  }

  // ---------------------------------------------------------------- program text

  /** A running process has exactly two pages: its program, read-only, byte for byte what the
      archive holds under its path followed by zeros; and a writable stack.  Its entry point
      lies inside the code. */
  ghost predicate TextOk(archive: Bytes, q: Process, v: Vm, data: map<nat, Bytes>)
  {
    && Program(archive, q.path).Some?
    && |q.pages| == 2 && q.pages[0].vpn == CODE_VPN && q.pages[1].vpn == STACK_VPN
    && q.space in v.spaces
    && CODE_VPN in v.spaces[q.space].leaves && STACK_VPN in v.spaces[q.space].leaves
    && v.spaces[q.space].leaves[CODE_VPN] == Mapping(q.pages[0].frame, false, true)
    && v.spaces[q.space].leaves[STACK_VPN] == Mapping(q.pages[1].frame, true, true)
    && q.pages[0].frame in data && q.pages[1].frame in data
    && data[q.pages[0].frame] == Filled(Program(archive, q.path).value.0)
    && |data[q.pages[1].frame]| == PAGE_SIZE
    && q.entry == CODE_VPN * 4096 + Program(archive, q.path).value.1
  }

  ghost predicate TextsOk(archive: Bytes, procs: seq<Process>, v: Vm, data: map<nat, Bytes>)
  {
    forall s {:trigger TextOk(archive, procs[s], v, data)} ::
      0 <= s < |procs| && procs[s].state == Active ==> TextOk(archive, procs[s], v, data)
  }

  // ---------------------------------------------------------------- history

  /** The pid has left the table for good: it was given out and no record carries it. */
  predicate Gone(procs: seq<Process>, nextPid: nat, pid: nat)
  {
    && 1 <= pid < nextPid
    && forall s :: 0 <= s < |procs| ==> !(procs[s].state != Vacant && procs[s].pid == pid)
  }

  /** The pid exited with this status and is either still uncollected or gone. */
  predicate Over(procs: seq<Process>, nextPid: nat, pid: nat, status: Word32)
  {
    || Gone(procs, nextPid, pid)
    || exists s :: 0 <= s < |procs| && procs[s].state == Exited && procs[s].pid == pid && procs[s].status == status
  }

  predicate EventOk(e: Event, procs: seq<Process>, nextPid: nat)
  {
    match e
    case Spawned(parent, child) => parent < child < nextPid
    case ExecFailed(pid) => Gone(procs, nextPid, pid)
    case DidExit(pid, status) => Over(procs, nextPid, pid, status)
    case Collected(parent, child, status) => Gone(procs, nextPid, child)
    case WaitFailed(parent, child) => true
  }

  /** What the history says about the table ... */
  ghost predicate LogOk(log: seq<Event>, procs: seq<Process>, nextPid: nat)
  {
    && (forall j :: 0 <= j < |log| ==> EventOk(log[j], procs, nextPid))
    && (forall s :: 0 <= s < |procs| && procs[s].state != Vacant && procs[s].parent != 0 ==>
          Spawned(procs[s].parent, procs[s].pid) in log)
    && (forall s :: 0 <= s < |procs| && procs[s].state == Exited ==>
          DidExit(procs[s].pid, procs[s].status) in log)
  }

  /** ... and about itself: a status is collected at most once, after the exit that set it,
      and by the process that spawned the child. */
  ghost predicate HistoryOk(log: seq<Event>)
  {
    && (forall i, j :: 0 <= i < j < |log| && log[i].DidExit? && log[j].DidExit? ==> log[i].pid != log[j].pid)
    && (forall i, j :: 0 <= i < j < |log| && log[i].Collected? && log[j].Collected? ==> log[i].child != log[j].child)
    && (forall j :: 0 <= j < |log| && log[j].Collected? ==>
          && DidExit(log[j].child, log[j].status) in log[..j]
          && Spawned(log[j].parent, log[j].child) in log[..j])
    && (forall i, j :: 0 <= i < |log| && 0 <= j < |log| && log[i].ExecFailed? && log[j].DidExit? ==> log[i].pid != log[j].pid)
  }

  // ---------------------------------------------------------------- together

  ghost predicate ProcsInv(b: Boot, k: K)
  {
    && TableOk(k.procs, k.nextPid, k.sys.nextId)
    && LinkOk(k.procs, k.sys.tasks, k.sys.mem.v.kdir)
    && SpacesOk(k.procs, k.sys.tasks, k.sys.mem.v)
    && TextsOk(b.archive, k.procs, k.sys.mem.v, k.sys.mem.data)
    && LogOk(k.log, k.procs, k.nextPid)
    && HistoryOk(k.log)
  }

  /** Between operations the current task is running. */
  ghost predicate Inv(b: Boot, k: K)
  {
    && SysInv(b.base, k.sys)
    && ProcsInv(b, k)
    && Current(k).state == Running
  }
}
