/** Every step keeps the invariant: steps that end a process or remove its record. */
module StepProofs {
  import opened Common
  import opened Archive
  import opened VmSpec
  import opened Owners
  import opened UserPages
  import opened SchedSpec
  import opened SchedProofs
  import opened Machine
  import opened ProcInv
  import opened ProcProofs
  import opened ExecProofs
  import opened LogProofs

  // ---------------------------------------------------------------- memory of one space

  lemma TaskSpacesMem(tasks: seq<Task>, m: Mem, m': Mem, d: nat)
    requires TaskSpaces(tasks, m.v) && SpaceOnly(m, m', d)
    requires forall i :: 0 <= i < |tasks| && tasks[i].state == Zombie ==> tasks[i].space != d
    ensures TaskSpaces(tasks, m'.v)
  {
  }

  lemma KernelHalfMem(base: Base, m: Mem, m': Mem, d: nat)
    requires KernelHalf(base, m.v) && SpaceOnly(m, m', d) && d != m.v.kdir
    ensures KernelHalf(base, m'.v)
  {
    forall d2 | d2 in m'.v.spaces ensures HasDirect(m'.v.spaces[d2]) {
      assert HasDirect(m.v.spaces[d2]);
    }
  }

  /** Changing the user half of a space no dead task holds. */
  lemma SysMem(base: Base, s: Sys, m': Mem, d: nat)
    requires SysInv(base, s) && MemInv(m', Claims(base.reserved, s.h.pages, {}))
    requires SpaceOnly(s.mem, m', d) && d != s.mem.v.kdir
    requires forall i :: 0 <= i < |s.tasks| && s.tasks[i].state == Zombie ==> s.tasks[i].space != d
    ensures SysInv(base, s.(mem := m'))
  {
    TaskSpacesMem(s.tasks, s.mem, m', d);
    KernelHalfMem(base, s.mem, m', d);
  }

  lemma TaskSpacesDrop(tasks: seq<Task>, v: Vm, d: nat)
    requires TaskSpaces(tasks, v)
    requires forall i :: 0 <= i < |tasks| && tasks[i].state != Unused ==> tasks[i].space != d
    ensures TaskSpaces(tasks, v.(spaces := v.spaces - {d}))
  {
  }

  /** Destroying an empty space no task uses. */
  lemma SysDestroy(base: Base, s: Sys, d: nat)
    requires SysInv(base, s) && d in s.mem.v.spaces && d != s.mem.v.kdir
    requires s.mem.v.spaces[d].leaves == map[]
    requires forall i :: 0 <= i < |s.tasks| && s.tasks[i].state != Unused ==> s.tasks[i].space != d
    ensures var (p, v) := Destroy(s.mem.p, s.mem.v, d);
      SysInv(base, s.(mem := s.mem.(p := p, v := v))) && v == s.mem.v.(spaces := s.mem.v.spaces - {d})
  {
    DestroyMem(s.mem, Claims(base.reserved, s.h.pages, {}), d);
    TaskSpacesDrop(s.tasks, s.mem.v, d);
    KernelHalfDrop(base, s.mem.v, d);
  }

  // ---------------------------------------------------------------- the end of a process

  /** How another record may change while one process ends: not at all, losing its parent, or
      (an exited child) being released. */
  predicate Trimmed(q: Process, q': Process, pid: nat)
  {
    || q' == q
    || (q.state != Vacant && q.parent == pid && (if q.state == Exited then q' == NO_PROC else q' == q.(parent := 0)))
  }

  predicate OthersTrimmed(procs: seq<Process>, procs': seq<Process>, s: nat)
    requires s < |procs|
  {
    && |procs'| == |procs|
    && forall t :: 0 <= t < |procs| && t != s ==> Trimmed(procs[t], procs'[t], procs[s].pid)
  }

  /** Slot `s` no longer runs: its record is vacant, or exited under the same pid and task. */
  predicate Ended(q: Process, q': Process)
  {
    || q' == NO_PROC
    || (q'.state == Exited && q'.pid == q.pid && q'.taskId == q.taskId && q'.parent == q.parent)
  }

  lemma EndHasTask(tasks: seq<Task>, cur: nat, t: Task, q: Process)
    requires cur < |tasks| && HasTask(tasks, q) && q.taskId != tasks[cur].id
    ensures HasTask(tasks[cur := t], q)
  {
    var i :| 1 <= i < |tasks| && Live(tasks[i]) && tasks[i].id == q.taskId;
    assert tasks[cur := t][i] == tasks[i];
  }

  predicate UniqueIds(tasks: seq<Task>)
  {
    forall i, j :: 0 <= i < j < |tasks| && tasks[i].state != Unused && tasks[j].state != Unused ==> tasks[i].id != tasks[j].id
  }

  /** Task `cur` runs the record in slot `s`, and that record ends. */
  ghost predicate Ending(procs: seq<Process>, procs': seq<Process>, tasks: seq<Task>, kdir: nat, s: nat, cur: nat)
  {
    && s < |procs| && Owning(procs[s]) && cur < |tasks| && Live(tasks[cur]) && tasks[cur].id == procs[s].taskId
    && UniqueIds(tasks) && LinkOk(procs, tasks, kdir)
    && OthersTrimmed(procs, procs', s) && Ended(procs[s], procs'[s])
    && (forall t :: 0 <= t < |procs| && t != s && procs[t].state != Vacant ==> procs[t].taskId != procs[s].taskId)
  }

  lemma EndTask(procs: seq<Process>, procs': seq<Process>, tasks: seq<Task>, kdir: nat, s: nat, cur: nat, dead: Task, t: nat)
    requires Ending(procs, procs', tasks, kdir, s, cur) && t < |procs'| && Owning(procs'[t])
    ensures HasTask(tasks[cur := dead], procs'[t])
  {
    assert t != s && Trimmed(procs[t], procs'[t], procs[s].pid);
    assert HasTask(tasks, procs[t]);
    EndHasTask(tasks, cur, dead, procs[t]);
  }

  lemma EndRecord(procs: seq<Process>, procs': seq<Process>, tasks: seq<Task>, kdir: nat, s: nat, cur: nat, i: nat)
    requires Ending(procs, procs', tasks, kdir, s, cur) && 1 <= i < |tasks| && i != cur
    requires Live(tasks[i]) && UserControl(tasks[i].ctl)
    ensures HasRecord(procs', tasks[i])
  {
    assert HasRecord(procs, tasks[i]);
    var t :| 0 <= t < |procs| && procs[t].state != Vacant && procs[t].taskId == tasks[i].id;
    assert t != s;
    assert Fits(tasks[i], procs[t], t, kdir);
    assert Trimmed(procs[t], procs'[t], procs[s].pid);
  }

  lemma EndFits(procs: seq<Process>, procs': seq<Process>, tasks: seq<Task>, kdir: nat, s: nat, cur: nat, t: nat, i: nat)
    requires Ending(procs, procs', tasks, kdir, s, cur) && t < |procs'| && i < |tasks| && i != cur
    requires procs'[t].state != Vacant && Live(tasks[i]) && tasks[i].id == procs'[t].taskId
    ensures Fits(tasks[i], procs'[t], t, kdir)
  {
    assert t != s;
    assert Trimmed(procs[t], procs'[t], procs[s].pid);
    assert Fits(tasks[i], procs[t], t, kdir);
  }

  lemma EndLink(procs: seq<Process>, procs': seq<Process>, tasks: seq<Task>, kdir: nat, s: nat, cur: nat, dead: Task)
    requires Ending(procs, procs', tasks, kdir, s, cur) && dead.state == Zombie
    ensures LinkOk(procs', tasks[cur := dead], kdir)
  {
    var tasks' := tasks[cur := dead];
    forall t | 0 <= t < |procs'| && Owning(procs'[t]) ensures HasTask(tasks', procs'[t]) {
      EndTask(procs, procs', tasks, kdir, s, cur, dead, t);
    }
    forall i | 1 <= i < |tasks'| && Live(tasks'[i]) && UserControl(tasks'[i].ctl) ensures HasRecord(procs', tasks'[i]) {
      EndRecord(procs, procs', tasks, kdir, s, cur, i);
    }
    forall t, i | 0 <= t < |procs'| && 0 <= i < |tasks'| && procs'[t].state != Vacant && Live(tasks'[i]) && tasks'[i].id == procs'[t].taskId
      ensures Fits(tasks'[i], procs'[t], t, kdir)
    {
      EndFits(procs, procs', tasks, kdir, s, cur, t, i);
    }
  }

  // ---------------------------------------------------------------- spaces when a process ends

  lemma EndHeldOther(procs: seq<Process>, procs': seq<Process>, tasks: seq<Task>, s: nat, cur: nat, dead: Task, d: nat)
    requires s < |procs| && OthersTrimmed(procs, procs', s) && cur < |tasks| && Live(tasks[cur])
    requires HeldBy(procs, tasks, d) && d != procs[s].space
    ensures HeldBy(procs', tasks[cur := dead], d)
  {
    if t :| 0 <= t < |procs| && Owning(procs[t]) && procs[t].space == d {
      assert Trimmed(procs[t], procs'[t], procs[s].pid);
      assert Owning(procs'[t]) && procs'[t].space == d;
    } else {
      var i :| 0 <= i < |tasks| && tasks[i].state == Zombie && tasks[i].space == d;
      assert tasks[cur := dead][i] == tasks[i];
    }
  }

  /** The space of an exited process passes from its record to its dead task. */
  lemma ExitSpaces(procs: seq<Process>, procs': seq<Process>, tasks: seq<Task>, m: Mem, m': Mem, s: nat, cur: nat, dead: Task)
    requires SpacesOk(procs, tasks, m.v) && s < |procs| && procs[s].state == Active
    requires OthersTrimmed(procs, procs', s) && Ended(procs[s], procs'[s])
    requires cur < |tasks| && Live(tasks[cur]) && tasks[cur].space == procs[s].space
    requires dead.state == Zombie && dead.space == procs[s].space
    requires SpaceOnly(m, m', procs[s].space)
    ensures SpacesOk(procs', tasks[cur := dead], m'.v)
  {
    var tasks' := tasks[cur := dead];
    var d := procs[s].space;
    forall t | 0 <= t < |procs'| && Owning(procs'[t])
      ensures RecordSpaceOk(procs'[t], m'.v) && procs'[t].space != d
    {
      assert t != s && Trimmed(procs[t], procs'[t], procs[s].pid);
      assert RecordSpaceOk(procs[t], m.v);
    }
    forall t, u | 0 <= t < u < |procs'| && Owning(procs'[t]) && Owning(procs'[u]) ensures procs'[t].space != procs'[u].space {
      assert Trimmed(procs[t], procs'[t], procs[s].pid) && Trimmed(procs[u], procs'[u], procs[s].pid);
    }
    forall t, i | 0 <= t < |procs'| && 0 <= i < |tasks'| && Owning(procs'[t]) && tasks'[i].state != Unused && tasks'[i].space == procs'[t].space
      ensures procs'[t].state == Active && Live(tasks'[i]) && tasks'[i].id == procs'[t].taskId
    {
      assert t != s && Trimmed(procs[t], procs'[t], procs[s].pid);
      assert i != cur && tasks'[i] == tasks[i];
    }
    forall x | x in m'.v.spaces && x != m'.v.kdir ensures HeldBy(procs', tasks', x) {
      if x == d {
        assert tasks'[cur].state == Zombie && tasks'[cur].space == d;
      } else {
        assert HeldBy(procs, tasks, x);
        EndHeldOther(procs, procs', tasks, s, cur, dead, x);
      }
    }
  }

  // ---------------------------------------------------------------- the table when a process ends

  predicate NoChildren(procs: seq<Process>, s: nat, pid: nat)
  {
    forall t :: 0 <= t < |procs| && t != s && procs[t].state != Vacant ==> procs[t].parent != pid
  }

  lemma EndHasActive(procs: seq<Process>, procs': seq<Process>, s: nat, pid: nat)
    requires s < |procs| && OthersTrimmed(procs, procs', s) && HasActive(procs, pid) && pid != procs[s].pid
    ensures HasActive(procs', pid)
  {
    var j :| 0 <= j < |procs| && procs[j].state == Active && procs[j].pid == pid;
    assert Trimmed(procs[j], procs'[j], procs[s].pid);
    assert procs'[j].state == Active && procs'[j].pid == pid;
  }

  lemma EndTable(procs: seq<Process>, procs': seq<Process>, nextPid: nat, nextId: nat, s: nat)
    requires TableOk(procs, nextPid, nextId) && s < |procs| && Owning(procs[s])
    requires OthersTrimmed(procs, procs', s) && Ended(procs[s], procs'[s])
    requires RecordOk(procs'[s], nextPid, nextId) && NoChildren(procs', s, procs[s].pid)
    ensures TableOk(procs', nextPid, nextId)
  {
    forall t | 0 <= t < |procs'| ensures RecordOk(procs'[t], nextPid, nextId) {
      assert RecordOk(procs[t], nextPid, nextId);
      if t != s { assert Trimmed(procs[t], procs'[t], procs[s].pid); }
    }
    forall t, u | 0 <= t < u < |procs'| && procs'[t].state != Vacant && procs'[u].state != Vacant
      ensures procs'[t].pid != procs'[u].pid && procs'[t].taskId != procs'[u].taskId
    {
      if t != s { assert Trimmed(procs[t], procs'[t], procs[s].pid); }
      if u != s { assert Trimmed(procs[u], procs'[u], procs[s].pid); }
    }
    forall t | 0 <= t < |procs'| && procs'[t].state != Vacant && procs'[t].parent != 0 ensures HasActive(procs', procs'[t].parent) {
      assert RecordOk(procs[t], nextPid, nextId);
      if t != s { assert Trimmed(procs[t], procs'[t], procs[s].pid); }
      assert HasActive(procs, procs[t].parent);
      EndHasActive(procs, procs', s, procs[t].parent);
    }
  }

  lemma EndLives(procs: seq<Process>, procs': seq<Process>, s: nat)
    requires s < |procs| && Owning(procs[s])
    requires OthersTrimmed(procs, procs', s) && Ended(procs[s], procs'[s])
    ensures LifeSteps(procs, procs')
  {
    forall t | 0 <= t < |procs| ensures LifeStep(procs[t], procs'[t]) {
      if t != s { assert Trimmed(procs[t], procs'[t], procs[s].pid); }
    }
  }

  lemma Found(procs: seq<Process>, pid: nat)
    ensures FindPid(procs, pid, 0) < |procs| <==> exists j :: 0 <= j < |procs| && procs[j].state != Vacant && procs[j].pid == pid
  {
  }

  /** `user_exit_current` on the table: children lose their parent or are released; the record
      itself is kept, exited, exactly when it has a parent to collect it. */
  lemma RetireShape(procs: seq<Process>, nextPid: nat, nextId: nat, s: nat, status: Word32)
    requires TableOk(procs, nextPid, nextId) && s < |procs| && procs[s].state == Active
    ensures var q := procs[s];
      var r := Retire(procs, s, status);
      && OthersTrimmed(procs, r, s) && Ended(q, r[s]) && NoChildren(r, s, q.pid)
      && r[s] == (if q.parent == 0 then NO_PROC
                  else q.(state := Exited, status := status, pages := [], space := 0))
  {
    var q := procs[s];
    var q' := q.(state := Exited, status := status, pages := [], space := 0);
    assert RecordOk(q, nextPid, nextId);
    var r := Orphan(procs[s := q'], q.pid);
    assert r[s] == q';
    assert OthersTrimmed(procs, r, s);
    Found(r, q.parent);
    if q.parent != 0 {
      assert HasActive(procs, procs[s].parent);
      EndHasActive(procs, r, s, q.parent);
      var j :| 0 <= j < |r| && r[j].state == Active && r[j].pid == q.parent;
    } else {
      PidsNonzero(procs, r, nextPid, nextId, s);
    }
  }

  lemma PidsNonzero(procs: seq<Process>, r: seq<Process>, nextPid: nat, nextId: nat, s: nat)
    requires TableOk(procs, nextPid, nextId) && s < |procs| && procs[s].state != Vacant && OthersTrimmed(procs, r, s)
    requires r[s].pid == procs[s].pid
    ensures forall j :: 0 <= j < |r| && r[j].state != Vacant ==> r[j].pid != 0
  {
    forall j | 0 <= j < |r| && r[j].state != Vacant ensures r[j].pid != 0 {
      assert RecordOk(procs[j], nextPid, nextId);
      if j != s { assert Trimmed(procs[j], r[j], procs[s].pid); }
    }
  }

  // ---------------------------------------------------------------- program text of the others

  /** Work on one space leaves the pages of a process in another space alone. */
  lemma TextKept(archive: Bytes, q: Process, q': Process, m: Mem, m': Mem, c: Claims, d: nat)
    requires TextOk(archive, q, m.v, m.data) && q.space != d && q.space != m.v.kdir
    requires q'.path == q.path && q'.pages == q.pages && q'.space == q.space && q'.entry == q.entry
    requires SpaceOnly(m, m', d) && Partition(m.p, c, m.v)
    ensures TextOk(archive, q', m'.v, m'.data)
  {
    assert FrameOf(c, m.v, UserLeaf(q.space, CODE_VPN)) == Some(q.pages[0].frame);
    assert FrameOf(c, m.v, UserLeaf(q.space, STACK_VPN)) == Some(q.pages[1].frame);
  }

  lemma EndTexts(archive: Bytes, procs: seq<Process>, procs': seq<Process>, tasks: seq<Task>, m: Mem, m': Mem, c: Claims, s: nat)
    requires SpacesOk(procs, tasks, m.v) && TextsOk(archive, procs, m.v, m.data)
    requires s < |procs| && Owning(procs[s]) && OthersTrimmed(procs, procs', s) && Ended(procs[s], procs'[s])
    requires SpaceOnly(m, m', procs[s].space) && Partition(m.p, c, m.v)
    ensures TextsOk(archive, procs', m'.v, m'.data)
  {
    forall t | 0 <= t < |procs'| && procs'[t].state == Active ensures TextOk(archive, procs'[t], m'.v, m'.data) {
      assert t != s && Trimmed(procs[t], procs'[t], procs[s].pid);
      assert RecordSpaceOk(procs[t], m.v);
      assert TextOk(archive, procs[t], m.v, m.data);
      TextKept(archive, procs[t], procs'[t], m, m', c, procs[s].space);
    }
  }

  // ---------------------------------------------------------------- exit

  /** The record of the current task, by the place the task is at. */
  lemma CurrentRecord(b: Boot, k: K)
    requires Inv(b, k) && UserControl(Current(k).ctl)
    ensures var s := FindTask(k.procs, Current(k).id, 0);
      && s < |k.procs| && k.sys.current != 0
      && Fits(Current(k), k.procs[s], s, k.sys.mem.v.kdir) && k.procs[s].taskId == Current(k).id
  {
    assert HasRecord(k.procs, k.sys.tasks[k.sys.current]);
  }

  /** No dead task holds a running record's space. */
  lemma NotDead(procs: seq<Process>, tasks: seq<Task>, v: Vm, s: nat)
    requires SpacesOk(procs, tasks, v) && s < |procs| && Owning(procs[s])
    ensures forall i :: 0 <= i < |tasks| && tasks[i].state == Zombie ==> tasks[i].space != procs[s].space
    ensures procs[s].state == Created ==> forall i :: 0 <= i < |tasks| && tasks[i].state != Unused ==> tasks[i].space != procs[s].space
    ensures RecordSpaceOk(procs[s], v)
  {
  }

  lemma EndingFrom(b: Boot, k: K, procs': seq<Process>, s: nat)
    requires Inv(b, k) && s < |k.procs| && Owning(k.procs[s]) && k.procs[s].taskId == Current(k).id
    requires OthersTrimmed(k.procs, procs', s) && Ended(k.procs[s], procs'[s])
    ensures Ending(k.procs, procs', k.sys.tasks, k.sys.mem.v.kdir, s, k.sys.current)
  {
  }

  /** What holds once the current process has exited and its task is marked dead. */
  lemma ExitSys(b: Boot, k: K, s: nat)
    requires Inv(b, k) && s < |k.procs| && k.procs[s].state == Active && k.sys.current != 0
    requires Current(k).space == k.procs[s].space
    ensures var m' := FreePages(k.sys.mem, k.procs[s].space, k.procs[s].pages);
      && SpaceOnly(k.sys.mem, m', k.procs[s].space)
      && SysInv(b.base, MarkZombie(k.sys.(mem := m')))
  {
    var d := k.procs[s].space;
    var c := Claims(b.base.reserved, k.sys.h.pages, {});
    NotDead(k.procs, k.sys.tasks, k.sys.mem.v, s);
    FreePagesOnly(k.sys.mem, c, d, k.procs[s].pages);
    var m' := FreePages(k.sys.mem, d, k.procs[s].pages);
    SysMem(b.base, k.sys, m', d);
    MarkZombieKeeps(b.base, k.sys.(mem := m'));
  }

  lemma ExitTable(procs: seq<Process>, nextPid: nat, nextId: nat, log: seq<Event>, s: nat, status: Word32)
    requires TableOk(procs, nextPid, nextId) && LogOk(log, procs, nextPid) && HistoryOk(log)
    requires s < |procs| && procs[s].state == Active
    ensures var procs' := Retire(procs, s, status);
      && TableOk(procs', nextPid, nextId)
      && LogOk(log + [DidExit(procs[s].pid, status)], procs', nextPid)
      && HistoryOk(log + [DidExit(procs[s].pid, status)])
  {
    var procs' := Retire(procs, s, status);
    RetireShape(procs, nextPid, nextId, s, status);
    assert RecordOk(procs[s], nextPid, nextId);
    EndTable(procs, procs', nextPid, nextId, s);
    HistoryExit(log, procs, nextPid, s, status);
    assert LogOk(log + [DidExit(procs[s].pid, status)], procs', nextPid) by {
      EndLives(procs, procs', s);
      ExitEvent(procs, procs', nextPid, nextId, s, status);
      PidRange(procs, nextPid, nextId);
      LogGrows(log, DidExit(procs[s].pid, status), procs, procs', nextPid);
    }
  }

  lemma PidRange(procs: seq<Process>, nextPid: nat, nextId: nat)
    requires TableOk(procs, nextPid, nextId)
    ensures forall s :: 0 <= s < |procs| ==> procs[s].state != Vacant ==> 1 <= procs[s].pid < nextPid
    ensures UniquePids(procs)
  {
    forall s | 0 <= s < |procs| && procs[s].state != Vacant ensures 1 <= procs[s].pid < nextPid {
      assert RecordOk(procs[s], nextPid, nextId);
    }
  }

  lemma ExitEvent(procs: seq<Process>, procs': seq<Process>, nextPid: nat, nextId: nat, s: nat, status: Word32)
    requires TableOk(procs, nextPid, nextId) && s < |procs| && Owning(procs[s])
    requires OthersTrimmed(procs, procs', s)
    requires procs'[s] == NO_PROC || (procs'[s].state == Exited && procs'[s].pid == procs[s].pid && procs'[s].status == status)
    ensures EventOk(DidExit(procs[s].pid, status), procs', nextPid)
    ensures procs'[s] == NO_PROC ==> Gone(procs', nextPid, procs[s].pid)
    ensures forall t :: 0 <= t < |procs| && procs'[t].state == Exited && procs[t].state != Exited ==>
              DidExit(procs[s].pid, status) == DidExit(procs'[t].pid, procs'[t].status)
  {
    assert RecordOk(procs[s], nextPid, nextId);
    forall t | 0 <= t < |procs| && t != s
      ensures procs'[t].state != Vacant ==>
                procs'[t].pid != procs[s].pid && (procs'[t].state == Exited ==> procs[t].state == Exited) {
      assert Trimmed(procs[t], procs'[t], procs[s].pid);
    }
  }

  lemma ExitProcs(b: Boot, k: K, s: nat, status: Word32)
    requires Inv(b, k) && s < |k.procs| && k.procs[s].state == Active && k.procs[s].taskId == Current(k).id
    requires Current(k).space == k.procs[s].space && k.sys.current != 0
    ensures ProcsInv(b, k.(sys := MarkZombie(k.sys.(mem := FreePages(k.sys.mem, k.procs[s].space, k.procs[s].pages))),
                           procs := Retire(k.procs, s, status), log := k.log + [DidExit(k.procs[s].pid, status)]))
  {
    var procs' := Retire(k.procs, s, status);
    var m' := FreePages(k.sys.mem, k.procs[s].space, k.procs[s].pages);
    var cur := k.sys.current;
    var dead := k.sys.tasks[cur].(state := Zombie, ctl := Idle);
    ExitSys(b, k, s);
    ExitTable(k.procs, k.nextPid, k.sys.nextId, k.log, s, status);
    RetireShape(k.procs, k.nextPid, k.sys.nextId, s, status);
    EndingFrom(b, k, procs', s);
    EndLink(k.procs, procs', k.sys.tasks, k.sys.mem.v.kdir, s, cur, dead);
    ExitSpaces(k.procs, procs', k.sys.tasks, k.sys.mem, m', s, cur, dead);
    EndTexts(b.archive, k.procs, procs', k.sys.tasks, k.sys.mem, m', Claims(b.base.reserved, k.sys.h.pages, {}), s);
  }

  /** `sys_exit` keeps the invariant. */
  lemma ExitInv(b: Boot, k: K, status: Word32)
    requires Inv(b, k) && Current(k).ctl == InUser
    ensures Inv(b, Exit(k, status))
  {
    CurrentRecord(b, k);
    var s := FindTask(k.procs, Current(k).id, 0);
    ExitSys(b, k, s);
    ExitProcs(b, k, s, status);
    hide SysInv; hide ProcsInv; hide FreePages; hide Retire; hide Yield;
    YieldInv(b, k.(sys := MarkZombie(k.sys.(mem := FreePages(k.sys.mem, k.procs[s].space, k.procs[s].pages))),
                   procs := Retire(k.procs, s, status), log := k.log + [DidExit(k.procs[s].pid, status)]));
  }
}
