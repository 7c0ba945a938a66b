/** Every step keeps the invariant: spawning a process and executing its program. */
module StartProofs {
  import opened Archive
  import opened VmSpec
  import opened Owners
  import opened UserPages
  import opened SchedSpec
  import opened SchedProofs
  import opened Machine
  import opened ProcInv
  import opened ProcProofs
  import opened ExecProofs
  import opened LogProofs
  import opened StepProofs
  import HeapSpec

  // ---------------------------------------------------------------- a failed exec

  /** A process that was only created has no children. */
  lemma NoChildrenYet(procs: seq<Process>, nextPid: nat, nextId: nat, s: nat)
    requires TableOk(procs, nextPid, nextId) && s < |procs| && procs[s].state == Created
    ensures NoChildren(procs, s, procs[s].pid)
  {
    forall t | 0 <= t < |procs| && t != s && procs[t].state != Vacant ensures procs[t].parent != procs[s].pid {
      assert RecordOk(procs[s], nextPid, nextId);
      assert procs[t].parent != 0 ==> HasActive(procs, procs[t].parent);
    }
  }

  lemma FailTable(procs: seq<Process>, nextPid: nat, nextId: nat, log: seq<Event>, s: nat)
    requires TableOk(procs, nextPid, nextId) && LogOk(log, procs, nextPid) && HistoryOk(log)
    requires s < |procs| && procs[s].state == Created
    ensures var procs' := procs[s := NO_PROC];
      && TableOk(procs', nextPid, nextId)
      && LogOk(log + [ExecFailed(procs[s].pid)], procs', nextPid)
      && HistoryOk(log + [ExecFailed(procs[s].pid)])
  {
    var procs' := procs[s := NO_PROC];
    NoChildrenYet(procs, nextPid, nextId, s);
    EndTable(procs, procs', nextPid, nextId, s);
    PidRange(procs, nextPid, nextId);
    HistoryExecFailed(log, procs, nextPid, s);
    assert LogOk(log + [ExecFailed(procs[s].pid)], procs', nextPid) by {
      EndLives(procs, procs', s);
      ExitEvent(procs, procs', nextPid, nextId, s, 0);
      LogGrows(log, ExecFailed(procs[s].pid), procs, procs', nextPid);
    }
  }

  /** The space of a process that never ran is destroyed with its record. */
  lemma FailSpaces(procs: seq<Process>, tasks: seq<Task>, m: Mem, m': Mem, s: nat, cur: nat, dead: Task)
    requires SpacesOk(procs, tasks, m.v) && s < |procs| && procs[s].state == Created
    requires cur < |tasks| && Live(tasks[cur]) && dead.state == Zombie && dead.space == m.v.kdir
    requires SpaceOnly(m, m', procs[s].space)
    ensures SpacesOk(procs[s := NO_PROC], tasks[cur := dead], m'.v.(spaces := m'.v.spaces - {procs[s].space}))
  {
    var procs' := procs[s := NO_PROC];
    var tasks' := tasks[cur := dead];
    var d := procs[s].space;
    var v' := m'.v.(spaces := m'.v.spaces - {d});
    forall t | 0 <= t < |procs'| && Owning(procs'[t]) ensures RecordSpaceOk(procs'[t], v') {
      assert RecordSpaceOk(procs[t], m.v);
      assert procs[t].space != d;
    }
    forall t, i | 0 <= t < |procs'| && 0 <= i < |tasks'| && Owning(procs'[t]) && tasks'[i].state != Unused && tasks'[i].space == procs'[t].space
      ensures procs'[t].state == Active && Live(tasks'[i]) && tasks'[i].id == procs'[t].taskId
    {
      assert RecordSpaceOk(procs[t], m.v);
      assert i != cur && tasks'[i] == tasks[i];
    }
    forall x | x in v'.spaces && x != v'.kdir ensures HeldBy(procs', tasks', x) {
      assert HeldBy(procs, tasks, x);
      EndHeldOther(procs, procs', tasks, s, cur, dead, x);
    }
  }

  /** Memory after a failed exec: the space is gone, its frames free. */
  function FailMem(m: Mem, d: nat): Mem
  {
    var (p, v) := Destroy(m.p, m.v, d); m.(p := p, v := v)
  }

  lemma FailSys(b: Boot, k: K, m': Mem, s: nat)
    requires Inv(b, k) && s < |k.procs| && k.procs[s].state == Created && k.sys.current != 0
    requires Current(k).space == k.sys.mem.v.kdir
    requires MemInv(m', Claims(b.base.reserved, k.sys.h.pages, {})) && SpaceOnly(k.sys.mem, m', k.procs[s].space)
    requires m'.v.spaces[k.procs[s].space].leaves == map[]
    ensures SysInv(b.base, MarkZombie(k.sys.(mem := FailMem(m', k.procs[s].space))))
    ensures FailMem(m', k.procs[s].space).v == m'.v.(spaces := m'.v.spaces - {k.procs[s].space})
  {
    var d := k.procs[s].space;
    NotDead(k.procs, k.sys.tasks, k.sys.mem.v, s);
    SysMem(b.base, k.sys, m', d);
    SysDestroy(b.base, k.sys.(mem := m'), d);
    MarkZombieKeeps(b.base, k.sys.(mem := FailMem(m', d)));
  }

  lemma FailTexts(archive: Bytes, procs: seq<Process>, tasks: seq<Task>, m: Mem, m': Mem, c: Claims, s: nat)
    requires SpacesOk(procs, tasks, m.v) && TextsOk(archive, procs, m.v, m.data)
    requires s < |procs| && procs[s].state == Created
    requires SpaceOnly(m, m', procs[s].space) && Partition(m.p, c, m.v)
    ensures TextsOk(archive, procs[s := NO_PROC], m'.v.(spaces := m'.v.spaces - {procs[s].space}), m'.data)
  {
    var procs' := procs[s := NO_PROC];
    var v' := m'.v.(spaces := m'.v.spaces - {procs[s].space});
    EndTexts(archive, procs, procs', tasks, m, m', c, s);
    forall t | 0 <= t < |procs'| && procs'[t].state == Active ensures TextOk(archive, procs'[t], v', m'.data) {
      assert TextOk(archive, procs'[t], m'.v, m'.data);
      assert procs[t].space != procs[s].space;
    }
  }

  lemma FailProcs(b: Boot, k: K, m': Mem, s: nat)
    requires Inv(b, k) && s < |k.procs| && k.procs[s].state == Created && k.procs[s].taskId == Current(k).id
    requires Current(k).space == k.sys.mem.v.kdir
    requires SpaceOnly(k.sys.mem, m', k.procs[s].space)
    requires FailMem(m', k.procs[s].space).v == m'.v.(spaces := m'.v.spaces - {k.procs[s].space})
    ensures ProcsInv(b, k.(sys := MarkZombie(k.sys.(mem := FailMem(m', k.procs[s].space))),
                           procs := k.procs[s := NO_PROC], log := k.log + [ExecFailed(k.procs[s].pid)]))
  {
    var procs' := k.procs[s := NO_PROC];
    var cur := k.sys.current;
    var dead := k.sys.tasks[cur].(state := Zombie, ctl := Idle);
    FailTable(k.procs, k.nextPid, k.sys.nextId, k.log, s);
    EndingFrom(b, k, procs', s);
    EndLink(k.procs, procs', k.sys.tasks, k.sys.mem.v.kdir, s, cur, dead);
    FailSpaces(k.procs, k.sys.tasks, k.sys.mem, m', s, cur, dead);
    FailTexts(b.archive, k.procs, k.sys.tasks, k.sys.mem, m', Claims(b.base.reserved, k.sys.h.pages, {}), s);
  }

  lemma ExecFailInv(b: Boot, k: K, m': Mem, s: nat)
    requires Inv(b, k) && s < |k.procs| && k.procs[s].state == Created && k.procs[s].taskId == Current(k).id
    requires k.sys.current != 0 && Current(k).space == k.sys.mem.v.kdir
    requires MemInv(m', Claims(b.base.reserved, k.sys.h.pages, {})) && SpaceOnly(k.sys.mem, m', k.procs[s].space)
    requires m'.v.spaces[k.procs[s].space].leaves == map[]
    ensures Inv(b, Die(k.(sys := k.sys.(mem := FailMem(m', k.procs[s].space)), procs := k.procs[s := NO_PROC],
                          log := k.log + [ExecFailed(k.procs[s].pid)])))
  {
    FailSys(b, k, m', s);
    FailProcs(b, k, m', s);
    YieldInv(b, k.(sys := MarkZombie(k.sys.(mem := FailMem(m', k.procs[s].space))),
                   procs := k.procs[s := NO_PROC], log := k.log + [ExecFailed(k.procs[s].pid)]));
  }

  // ---------------------------------------------------------------- a successful exec

  lemma SetControlKeeps(base: Base, s: Sys, ctl: Control)
    requires SysInv(base, s) && s.current != 0 && s.tasks[s.current].state == Running
    ensures SysInv(base, SetControl(s, ctl))
  {
    StacksSame(s.tasks, SetControl(s, ctl).tasks, HeapSpec.LiveBlocks(s.h));
  }

  /** The record once its program runs. */
  function Activated(q: Process, pages: seq<Page>, entry: nat): Process
  {
    q.(state := Active, pages := pages, entry := entry)
  }

  lemma ActivateTable(procs: seq<Process>, nextPid: nat, nextId: nat, log: seq<Event>, s: nat, pages: seq<Page>, entry: nat)
    requires TableOk(procs, nextPid, nextId) && LogOk(log, procs, nextPid)
    requires s < |procs| && procs[s].state == Created
    ensures var procs' := procs[s := Activated(procs[s], pages, entry)];
      TableOk(procs', nextPid, nextId) && LogOk(log, procs', nextPid)
  {
    var procs' := procs[s := Activated(procs[s], pages, entry)];
    assert RecordOk(procs[s], nextPid, nextId);
    forall t | 0 <= t < |procs'| && procs'[t].state != Vacant && procs'[t].parent != 0 ensures HasActive(procs', procs'[t].parent) {
      assert HasActive(procs, procs[t].parent);
      var j :| 0 <= j < |procs| && procs[j].state == Active && procs[j].pid == procs[t].parent;
      assert procs'[j].state == Active && procs'[j].pid == procs[j].pid;
    }
    PidRange(procs, nextPid, nextId);
    LogSame(log, procs, procs', nextPid);
  }

  lemma ActivateLink(procs: seq<Process>, tasks: seq<Task>, kdir: nat, s: nat, cur: nat, pages: seq<Page>, entry: nat)
    requires LinkOk(procs, tasks, kdir) && UniqueIds(tasks)
    requires s < |procs| && procs[s].state == Created && 1 <= cur < |tasks| && Live(tasks[cur]) && tasks[cur].id == procs[s].taskId
    requires forall t :: 0 <= t < |procs| && t != s && procs[t].state != Vacant ==> procs[t].taskId != procs[s].taskId
    ensures LinkOk(procs[s := Activated(procs[s], pages, entry)],
                   tasks[cur := tasks[cur].(space := procs[s].space, ctl := InUser)], kdir)
  {
    var procs' := procs[s := Activated(procs[s], pages, entry)];
    var tasks' := tasks[cur := tasks[cur].(space := procs[s].space, ctl := InUser)];
    forall t | 0 <= t < |procs'| && Owning(procs'[t]) ensures HasTask(tasks', procs'[t]) {
      assert HasTask(tasks, procs[t]);
      var i :| 1 <= i < |tasks| && Live(tasks[i]) && tasks[i].id == procs[t].taskId;
      assert Live(tasks'[i]) && tasks'[i].id == procs'[t].taskId;
    }
    forall i | 1 <= i < |tasks'| && Live(tasks'[i]) && UserControl(tasks'[i].ctl) ensures HasRecord(procs', tasks'[i]) {
      if i == cur {
        assert procs'[s].state != Vacant && procs'[s].taskId == tasks'[cur].id;
      } else {
        assert HasRecord(procs, tasks[i]);
        var t :| 0 <= t < |procs| && procs[t].state != Vacant && procs[t].taskId == tasks[i].id;
        assert procs'[t].state != Vacant && procs'[t].taskId == tasks'[i].id;
      }
    }
    forall t, i | 0 <= t < |procs'| && 0 <= i < |tasks'| && procs'[t].state != Vacant && Live(tasks'[i]) && tasks'[i].id == procs'[t].taskId
      ensures Fits(tasks'[i], procs'[t], t, kdir)
    {
      if t != s && i != cur { assert Fits(tasks[i], procs[t], t, kdir); }
    }
  }

  lemma ActivateSpaces(procs: seq<Process>, tasks: seq<Task>, m: Mem, m': Mem, s: nat, cur: nat, pages: seq<Page>, entry: nat)
    requires SpacesOk(procs, tasks, m.v) && s < |procs| && procs[s].state == Created
    requires cur < |tasks| && Live(tasks[cur]) && tasks[cur].id == procs[s].taskId
    requires SpaceOnly(m, m', procs[s].space) && PagesMatch(m'.v.spaces[procs[s].space].leaves, pages)
    ensures SpacesOk(procs[s := Activated(procs[s], pages, entry)],
                     tasks[cur := tasks[cur].(space := procs[s].space, ctl := InUser)], Load(m'.v, procs[s].space))
  {
    var d := procs[s].space;
    var procs' := procs[s := Activated(procs[s], pages, entry)];
    var tasks' := tasks[cur := tasks[cur].(space := d, ctl := InUser)];
    var v' := Load(m'.v, d);
    forall t | 0 <= t < |procs'| && Owning(procs'[t]) ensures RecordSpaceOk(procs'[t], v') {
      assert RecordSpaceOk(procs[t], m.v);
    }
    forall t, i | 0 <= t < |procs'| && 0 <= i < |tasks'| && Owning(procs'[t]) && tasks'[i].state != Unused && tasks'[i].space == procs'[t].space
      ensures procs'[t].state == Active && Live(tasks'[i]) && tasks'[i].id == procs'[t].taskId
    {
      if i != cur { assert tasks'[i] == tasks[i]; }
    }
    forall x | x in v'.spaces && x != v'.kdir ensures HeldBy(procs', tasks', x) {
      assert HeldBy(procs, tasks, x);
      ActivateHeld(procs, tasks, s, cur, procs'[s], tasks'[cur], x);
    }
  }

  lemma ActivateHeld(procs: seq<Process>, tasks: seq<Task>, s: nat, cur: nat, q': Process, t': Task, x: nat)
    requires s < |procs| && cur < |tasks| && Live(tasks[cur]) && Owning(q') && q'.space == procs[s].space
    requires HeldBy(procs, tasks, x)
    ensures HeldBy(procs[s := q'], tasks[cur := t'], x)
  {
    if t :| 0 <= t < |procs| && Owning(procs[t]) && procs[t].space == x {
      assert Owning(procs[s := q'][t]) && procs[s := q'][t].space == x;
    } else {
      var i :| 0 <= i < |tasks| && tasks[i].state == Zombie && tasks[i].space == x;
      assert tasks[cur := t'][i] == tasks[i];
    }
  }

  lemma ActivateTexts(archive: Bytes, procs: seq<Process>, tasks: seq<Task>, m: Mem, m': Mem, c: Claims, s: nat, pages: seq<Page>, entry: nat)
    requires SpacesOk(procs, tasks, m.v) && TextsOk(archive, procs, m.v, m.data)
    requires s < |procs| && procs[s].state == Created
    requires SpaceOnly(m, m', procs[s].space) && Partition(m.p, c, m.v)
    requires TextOk(archive, LoadedRecord(procs[s].space, procs[s].path, pages, entry), m'.v, m'.data)
    ensures TextsOk(archive, procs[s := Activated(procs[s], pages, entry)], Load(m'.v, procs[s].space), m'.data)
  {
    var procs' := procs[s := Activated(procs[s], pages, entry)];
    var v' := Load(m'.v, procs[s].space);
    forall t | 0 <= t < |procs'| && procs'[t].state == Active ensures TextOk(archive, procs'[t], v', m'.data) {
      if t != s {
        assert RecordSpaceOk(procs[t], m.v);
        assert TextOk(archive, procs[t], m.v, m.data);
        TextKept(archive, procs[t], procs[t], m, m', c, procs[s].space);
      }
    }
  }

  lemma ExecOkSys(b: Boot, k: K, m': Mem, s: nat)
    requires Inv(b, k) && s < |k.procs| && k.procs[s].state == Created && k.sys.current != 0
    requires MemInv(m', Claims(b.base.reserved, k.sys.h.pages, {})) && SpaceOnly(k.sys.mem, m', k.procs[s].space)
    ensures SysInv(b.base, SetControl(Adopt(k.sys.(mem := m'), k.procs[s].space), InUser))
  {
    var d := k.procs[s].space;
    NotDead(k.procs, k.sys.tasks, k.sys.mem.v, s);
    SysMem(b.base, k.sys, m', d);
    AdoptKeeps(b.base, k.sys.(mem := m'), d);
    SetControlKeeps(b.base, Adopt(k.sys.(mem := m'), d), InUser);
  }

  function ExecOkState(k: K, m': Mem, s: nat, pages: seq<Page>, entry: nat): K
    requires s < |k.procs| && k.sys.current < |k.sys.tasks|
  {
    k.(sys := SetControl(Adopt(k.sys.(mem := m'), k.procs[s].space), InUser),
       procs := k.procs[s := Activated(k.procs[s], pages, entry)])
  }

  function ExecFailState(k: K, m': Mem, s: nat): K
    requires s < |k.procs|
  {
    k.(sys := k.sys.(mem := FailMem(m', k.procs[s].space)), procs := k.procs[s := NO_PROC],
       log := k.log + [ExecFailed(k.procs[s].pid)])
  }

  lemma ExecOkShape(k: K, m': Mem, s: nat, pages: seq<Page>, entry: nat)
    requires s < |k.procs| && k.sys.current < |k.sys.tasks|
    ensures var k' := ExecOkState(k, m', s, pages, entry);
      && k'.sys.tasks == k.sys.tasks[k.sys.current := Current(k).(space := k.procs[s].space, ctl := InUser)]
      && k'.sys.mem == m'.(v := Load(m'.v, k.procs[s].space))
      && k'.sys.current == k.sys.current && k'.sys.nextId == k.sys.nextId
      && k'.procs == k.procs[s := Activated(k.procs[s], pages, entry)]
      && k'.nextPid == k.nextPid && k'.log == k.log
  {
  }

  lemma ExecOkProcs(b: Boot, k: K, m': Mem, s: nat, pages: seq<Page>, entry: nat)
    requires Inv(b, k) && s < |k.procs| && k.procs[s].state == Created && k.procs[s].taskId == Current(k).id
    requires k.sys.current != 0 && SpaceOnly(k.sys.mem, m', k.procs[s].space)
    requires PagesMatch(m'.v.spaces[k.procs[s].space].leaves, pages)
    requires TextOk(b.archive, LoadedRecord(k.procs[s].space, k.procs[s].path, pages, entry), m'.v, m'.data)
    ensures ProcsInv(b, ExecOkState(k, m', s, pages, entry))
  {
    ExecOkShape(k, m', s, pages, entry);
    ActivateTable(k.procs, k.nextPid, k.sys.nextId, k.log, s, pages, entry);
    ActivateLink(k.procs, k.sys.tasks, k.sys.mem.v.kdir, s, k.sys.current, pages, entry);
    ActivateSpaces(k.procs, k.sys.tasks, k.sys.mem, m', s, k.sys.current, pages, entry);
    ActivateTexts(b.archive, k.procs, k.sys.tasks, k.sys.mem, m', Claims(b.base.reserved, k.sys.h.pages, {}), s, pages, entry);
  }

  /** What `user_prepare_exec` gives the current task's record. */
  lemma Prepared(b: Boot, k: K, s: nat) returns (m': Mem, pages: seq<Page>, entry: nat, ok: bool)
    requires Inv(b, k) && s < |k.procs| && k.procs[s].state == Created
    ensures (m', pages, entry, ok) == PrepareExec(b.archive, k.sys.mem, k.procs[s].space, k.procs[s].pages, k.procs[s].path)
    ensures k.procs[s].space != 0
    ensures MemInv(m', Claims(b.base.reserved, k.sys.h.pages, {})) && SpaceOnly(k.sys.mem, m', k.procs[s].space)
    ensures ok ==> PagesMatch(m'.v.spaces[k.procs[s].space].leaves, pages)
    ensures ok ==> TextOk(b.archive, LoadedRecord(k.procs[s].space, k.procs[s].path, pages, entry), m'.v, m'.data)
    ensures !ok ==> m'.v.spaces[k.procs[s].space].leaves == map[]
  {
    NotDead(k.procs, k.sys.tasks, k.sys.mem.v, s);
    EmptyCreated(k.procs, k.nextPid, k.sys.nextId, k.sys.mem.v, s);
    PrepareExecEffect(b.archive, k.sys.mem, Claims(b.base.reserved, k.sys.h.pages, {}), k.procs[s].space, k.procs[s].path);
    var r := PrepareExec(b.archive, k.sys.mem, k.procs[s].space, k.procs[s].pages, k.procs[s].path);
    m', pages, entry, ok := r.0, r.1, r.2, r.3;
  }

  lemma ExecUnfold(b: Boot, k: K, s: nat)
    requires k.sys.current < |k.sys.tasks| && k.sys.current != 0
    requires s == FindTask(k.procs, Current(k).id, 0) < |k.procs| && k.procs[s].space != 0
    ensures var (m', pages, entry, ok) := PrepareExec(b.archive, k.sys.mem, k.procs[s].space, k.procs[s].pages, k.procs[s].path);
      Exec(b, k) == if ok then ExecOkState(k, m', s, pages, entry) else Die(ExecFailState(k, m', s))
  {
  }

  lemma ExecTaken(b: Boot, k: K, s: nat)
    requires Inv(b, k) && s < |k.procs| && k.procs[s].state == Created && k.procs[s].taskId == Current(k).id
    requires k.sys.current != 0 && Current(k).space == k.sys.mem.v.kdir
    requires s == FindTask(k.procs, Current(k).id, 0)
    ensures Inv(b, Exec(b, k))
  {
    var m', pages, entry, ok := Prepared(b, k, s);
    ExecUnfold(b, k, s);
    if ok {
      ExecOkSys(b, k, m', s);
      ExecOkProcs(b, k, m', s, pages, entry);
      ExecOkShape(k, m', s, pages, entry);
    } else {
      ExecFailInv(b, k, m', s);
    }
  }

  /** `user_exec_task` keeps the invariant, whether it reaches user mode or dies. */
  lemma ExecInv(b: Boot, k: K)
    requires Inv(b, k) && Current(k).ctl == EnterUser
    ensures Inv(b, Exec(b, k))
  {
    CurrentRecord(b, k);
    ExecTaken(b, k, FindTask(k.procs, Current(k).id, 0));
  }

  lemma EmptyCreated(procs: seq<Process>, nextPid: nat, nextId: nat, v: Vm, s: nat)
    requires TableOk(procs, nextPid, nextId) && s < |procs| && procs[s].state == Created && RecordSpaceOk(procs[s], v)
    ensures v.spaces[procs[s].space].leaves == map[]
  {
    assert RecordOk(procs[s], nextPid, nextId);
  }
}
