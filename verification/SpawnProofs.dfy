/** Every step keeps the invariant: `user_spawn` and `kthread_create`. */
module SpawnProofs {
  import opened Common
  import opened Archive
  import opened VmSpec
  import opened Owners
  import opened UserPages
  import opened SchedSpec
  import opened SchedProofs
  import opened Machine
  import opened ProcInv
  import opened ProcProofs
  import opened LogProofs
  import opened StepProofs

  // ---------------------------------------------------------------- a new address space

  function WithSpace(v: Vm, d: nat): Vm
    requires v.kdir in v.spaces
  {
    v.(spaces := v.spaces[d := Space(HighTables(v), map[])])
  }

  function WithoutSpace(v: Vm, d: nat): Vm { v.(spaces := v.spaces - {d}) }

  lemma CreateMem(m: Mem, c: Claims)
    requires MemInv(m, c)
    ensures var (p, v, d) := Create(m.p, m.v);
      && MemInv(m.(p := p, v := v), c)
      && (d == 0 ==> p == m.p && v == m.v)
      && (d != 0 ==> d !in m.v.spaces && v == WithSpace(m.v, d))
  {
    DirectoriesUsed(m.p, c, m.v);
    CreateEffect(m.p, m.v);
    CreatePartition(m.p, c, m.v);
  }

  lemma CreateHalf(base: Base, v: Vm, d: nat)
    requires d !in v.spaces && KernelHalf(base, v)
    ensures KernelHalf(base, WithSpace(v, d))
  {
    var v' := WithSpace(v, d);
    assert HasDirect(v.spaces[v.kdir]);
    forall d2 | d2 in v'.spaces ensures HasDirect(v'.spaces[d2]) {
      if d2 != d { assert HasDirect(v.spaces[d2]); }
    }
  }

  lemma CreateTaskSpaces(tasks: seq<Task>, v: Vm, d: nat)
    requires v.kdir in v.spaces && d !in v.spaces && TaskSpaces(tasks, v)
    ensures TaskSpaces(tasks, WithSpace(v, d))
  {
  }

  lemma CreateSys(base: Base, s: Sys)
    requires SysInv(base, s)
    ensures var (p, v, d) := Create(s.mem.p, s.mem.v);
      && SysInv(base, s.(mem := s.mem.(p := p, v := v)))
      && (d == 0 ==> p == s.mem.p && v == s.mem.v)
      && (d != 0 ==> d !in s.mem.v.spaces && v == WithSpace(s.mem.v, d))
  {
    var (p, v, d) := Create(s.mem.p, s.mem.v);
    CreateMem(s.mem, Claims(base.reserved, s.h.pages, {}));
    if d != 0 {
      CreateHalf(base, s.mem.v, d);
      CreateTaskSpaces(s.tasks, s.mem.v, d);
    }
  }

  /** Reaping with one more, unowned, space around: apart from that space it is invisible. */
  lemma ReapBeside(s: Sys, s1: Sys, r: Sys, d: nat)
    requires s.mem.v.kdir in s.mem.v.spaces && TaskSpaces(s.tasks, s.mem.v) && d !in s.mem.v.spaces
    requires s1.tasks == s.tasks && s1.nextId == s.nextId && s1.h == s.h && s1.mem.data == s.mem.data && s1.mem.v == WithSpace(s.mem.v, d)
    requires Quiet(s1, r)
    ensures Quiet(s, r.(mem := r.mem.(v := WithoutSpace(r.mem.v, d))))
    ensures d in r.mem.v.spaces && r.mem.v.spaces[d] == Space(HighTables(s.mem.v), map[])
    ensures forall i :: 0 <= i < |r.tasks| && r.tasks[i].state != Unused ==> r.tasks[i].space != d
  {
    var r0 := r.(mem := r.mem.(v := WithoutSpace(r.mem.v, d)));
    assert !DeadSpace(s1.tasks, r.tasks, d);
    assert SpaceQuiet(s1.mem.v, r.mem.v, s1.tasks, r.tasks, d);
    forall x ensures SpaceQuiet(s.mem.v, r0.mem.v, s.tasks, r0.tasks, x) {
      assert SpaceQuiet(s1.mem.v, r.mem.v, s1.tasks, r.tasks, x);
    }
    forall i | 0 <= i < |r.tasks| && r.tasks[i].state != Unused ensures r.tasks[i].space != d {
      assert Unnoticed(s1.tasks[i], r.tasks[i]);
    }
  }

  // ---------------------------------------------------------------- the table

  lemma MorePids(procs: seq<Process>, nextPid: nat, nextId: nat, nextPid': nat, nextId': nat)
    requires TableOk(procs, nextPid, nextId) && nextPid <= nextPid' && nextId <= nextId'
    ensures TableOk(procs, nextPid', nextId')
  {
    forall s | 0 <= s < |procs| ensures RecordOk(procs[s], nextPid', nextId') {
      assert RecordOk(procs[s], nextPid, nextId);
    }
  }

  lemma AddTable(procs: seq<Process>, nextPid: nat, nextId: nat, slot: nat, q: Process)
    requires TableOk(procs, nextPid, nextId) && slot < |procs| && procs[slot].state == Vacant
    requires q.state == Created && q.pid == nextPid && q.taskId == nextId && q.pages == [] && nextId >= 1
    requires IsCString(q.path)
    requires q.parent == 0 || (q.parent < nextPid && HasActive(procs, q.parent))
    ensures TableOk(procs[slot := q], nextPid + 1, nextId + 1)
  {
    var procs' := procs[slot := q];
    MorePids(procs, nextPid, nextId, nextPid + 1, nextId + 1);
    forall s | 0 <= s < |procs'| ensures RecordOk(procs'[s], nextPid + 1, nextId + 1) {
      assert RecordOk(procs[s], nextPid, nextId);
    }
    forall s, t | 0 <= s < t < |procs'| && procs'[s].state != Vacant && procs'[t].state != Vacant
      ensures procs'[s].pid != procs'[t].pid && procs'[s].taskId != procs'[t].taskId
    {
      assert RecordOk(procs[s], nextPid, nextId) && RecordOk(procs[t], nextPid, nextId);
    }
    forall s | 0 <= s < |procs'| && procs'[s].state != Vacant && procs'[s].parent != 0 ensures HasActive(procs', procs'[s].parent) {
      assert s != slot ==> HasActive(procs, procs[s].parent);
      var j :| 0 <= j < |procs| && procs[j].state == Active && procs[j].pid == procs'[s].parent;
      assert procs'[j] == procs[j];
    }
  }

  // ---------------------------------------------------------------- tasks and records

  lemma AddHasTask(tasks: seq<Task>, i: nat, t: Task, q: Process)
    requires i < |tasks| && !Live(tasks[i]) && HasTask(tasks, q)
    ensures HasTask(tasks[i := t], q)
  {
    var j :| 1 <= j < |tasks| && Live(tasks[j]) && tasks[j].id == q.taskId;
    assert tasks[i := t][j] == tasks[j];
  }

  /** A kernel thread has no record, and no record names it. */
  lemma AddKernelLink(procs: seq<Process>, tasks: seq<Task>, kdir: nat, nextPid: nat, nextId: nat, i: nat, t: Task)
    requires LinkOk(procs, tasks, kdir) && TableOk(procs, nextPid, nextId)
    requires 1 <= i < |tasks| && tasks[i] == NO_TASK && t.id == nextId && t.ctl == EnterKernel && t.space == kdir
    ensures LinkOk(procs, tasks[i := t], kdir)
  {
    var tasks' := tasks[i := t];
    forall s | 0 <= s < |procs| && Owning(procs[s]) ensures HasTask(tasks', procs[s]) {
      assert HasTask(tasks, procs[s]);
      AddHasTask(tasks, i, t, procs[s]);
    }
    forall j | 1 <= j < |tasks'| && Live(tasks'[j]) && UserControl(tasks'[j].ctl) ensures HasRecord(procs, tasks'[j]) {
      assert tasks'[j] == tasks[j];
      assert HasRecord(procs, tasks[j]);
    }
    forall s, j | 0 <= s < |procs| && 0 <= j < |tasks'| && procs[s].state != Vacant && Live(tasks'[j]) && tasks'[j].id == procs[s].taskId
      ensures Fits(tasks'[j], procs[s], s, kdir)
    {
      assert RecordOk(procs[s], nextPid, nextId);
      assert j != i && tasks'[j] == tasks[j];
    }
  }

  lemma AddUserLink(procs: seq<Process>, tasks: seq<Task>, kdir: nat, nextPid: nat, nextId: nat, slot: nat, q: Process, i: nat, t: Task)
    requires LinkOk(procs, tasks, kdir) && TableOk(procs, nextPid, nextId)
    requires forall j :: 0 <= j < |tasks| && tasks[j].state != Unused ==> tasks[j].id < nextId
    requires 1 <= i < |tasks| && tasks[i] == NO_TASK && t.state == Runnable && t.id == nextId && t.ctl == EnterUser && t.space == kdir
    requires slot < |procs| && procs[slot].state == Vacant && q.state == Created && q.taskId == nextId
    ensures LinkOk(procs[slot := q], tasks[i := t], kdir)
  {
    var procs' := procs[slot := q];
    var tasks' := tasks[i := t];
    forall s | 0 <= s < |procs'| && Owning(procs'[s]) ensures HasTask(tasks', procs'[s]) {
      if s == slot {
        assert Live(tasks'[i]) && tasks'[i].id == procs'[s].taskId;
      } else {
        assert HasTask(tasks, procs[s]);
        AddHasTask(tasks, i, t, procs[s]);
      }
    }
    forall j | 1 <= j < |tasks'| && Live(tasks'[j]) && UserControl(tasks'[j].ctl) ensures HasRecord(procs', tasks'[j]) {
      if j == i {
        assert procs'[slot].state != Vacant && procs'[slot].taskId == tasks'[j].id;
      } else {
        assert HasRecord(procs, tasks[j]);
        var s :| 0 <= s < |procs| && procs[s].state != Vacant && procs[s].taskId == tasks[j].id;
        assert procs'[s] == procs[s];
      }
    }
    forall s, j | 0 <= s < |procs'| && 0 <= j < |tasks'| && procs'[s].state != Vacant && Live(tasks'[j]) && tasks'[j].id == procs'[s].taskId
      ensures Fits(tasks'[j], procs'[s], s, kdir)
    {
      if s != slot {
        assert RecordOk(procs[s], nextPid, nextId);
        assert j != i && tasks'[j] == tasks[j] && procs'[s] == procs[s];
      } else {
        assert j == i;
      }
    }
  }

  // ---------------------------------------------------------------- spaces

  lemma AddHeld(procs: seq<Process>, tasks: seq<Task>, slot: nat, q: Process, i: nat, t: Task, x: nat)
    requires slot < |procs| && procs[slot].state == Vacant && i < |tasks| && tasks[i].state == Unused
    requires HeldBy(procs, tasks, x)
    ensures HeldBy(procs[slot := q], tasks[i := t], x)
  {
    if s :| 0 <= s < |procs| && Owning(procs[s]) && procs[s].space == x {
      assert procs[slot := q][s] == procs[s];
    } else {
      var j :| 0 <= j < |tasks| && tasks[j].state == Zombie && tasks[j].space == x;
      assert tasks[i := t][j] == tasks[j];
    }
  }

  lemma AddKernelSpaces(procs: seq<Process>, tasks: seq<Task>, v: Vm, i: nat, t: Task)
    requires SpacesOk(procs, tasks, v) && i < |tasks| && tasks[i].state == Unused && t.space == v.kdir
    ensures SpacesOk(procs, tasks[i := t], v)
  {
    var tasks' := tasks[i := t];
    forall s, j | 0 <= s < |procs| && 0 <= j < |tasks'| && Owning(procs[s]) && tasks'[j].state != Unused && tasks'[j].space == procs[s].space
      ensures procs[s].state == Active && Live(tasks'[j]) && tasks'[j].id == procs[s].taskId
    {
      assert RecordSpaceOk(procs[s], v);
      assert j != i && tasks'[j] == tasks[j];
    }
    forall x | x in v.spaces && x != v.kdir ensures HeldBy(procs, tasks', x) {
      assert HeldBy(procs, tasks, x);
      if s :| 0 <= s < |procs| && Owning(procs[s]) && procs[s].space == x {
      } else {
        var j :| 0 <= j < |tasks| && tasks[j].state == Zombie && tasks[j].space == x;
        assert tasks'[j] == tasks[j];
      }
    }
  }

  lemma AddUserSpaces(procs: seq<Process>, tasks: seq<Task>, v: Vm, v': Vm, slot: nat, q: Process, i: nat, t: Task)
    requires v == WithoutSpace(v', q.space) && q.space in v'.spaces && q.space != v'.kdir && q.space != 0
    requires v'.spaces[q.space].leaves == map[] && q.pages == []
    requires SpacesOk(procs, tasks, v) && i < |tasks| && tasks[i].state == Unused && t.space == v.kdir
    requires slot < |procs| && procs[slot].state == Vacant && q.state == Created
    requires forall j :: 0 <= j < |tasks| && tasks[j].state != Unused ==> tasks[j].space != q.space
    ensures SpacesOk(procs[slot := q], tasks[i := t], v')
  {
    var procs' := procs[slot := q];
    var tasks' := tasks[i := t];
    forall s | 0 <= s < |procs'| && Owning(procs'[s]) ensures RecordSpaceOk(procs'[s], v') && (s != slot ==> procs'[s].space != q.space) {
      if s != slot { assert RecordSpaceOk(procs[s], v); }
    }
    forall s, j | 0 <= s < |procs'| && 0 <= j < |tasks'| && Owning(procs'[s]) && tasks'[j].state != Unused && tasks'[j].space == procs'[s].space
      ensures procs'[s].state == Active && Live(tasks'[j]) && tasks'[j].id == procs'[s].taskId
    {
      assert RecordSpaceOk(procs'[s], v');
      assert j != i && tasks'[j] == tasks[j];
      assert s != slot && procs'[s] == procs[s];
    }
    forall x | x in v'.spaces && x != v'.kdir ensures HeldBy(procs', tasks', x) {
      if x == q.space {
        assert Owning(procs'[slot]) && procs'[slot].space == x;
      } else {
        assert HeldBy(procs, tasks, x);
        AddHeld(procs, tasks, slot, q, i, t, x);
      }
    }
  }

  lemma AddTexts(archive: Bytes, procs: seq<Process>, v: Vm, v': Vm, data: map<nat, Bytes>, slot: nat, q: Process)
    requires TextsOk(archive, procs, v, data) && slot < |procs| && q.state != Active
    requires forall d :: d in v.spaces ==> d in v'.spaces && v'.spaces[d] == v.spaces[d]
    ensures TextsOk(archive, procs[slot := q], v', data)
  {
    var procs' := procs[slot := q];
    forall s | 0 <= s < |procs'| && procs'[s].state == Active ensures TextOk(archive, procs'[s], v', data) {
      assert TextOk(archive, procs[s], v, data);
    }
  }

  // ---------------------------------------------------------------- kthread_create

  lemma ReapCurrent(s: Sys)
    requires s.current < |s.tasks|
    ensures Reap(s, 1).current == s.current && |Reap(s, 1).tasks| == |s.tasks|
    ensures Reap(s, 1).tasks[s.current] == s.tasks[s.current]
  {
    ReapTasks(s, 1, s.current);
  }

  lemma CurrentStays(r: Sys, s': Sys, i: nat, ctl: Control)
    requires r.current < |r.tasks| && r.tasks[r.current].state == Running
    requires s' == r || SlotFilled(r, s', i, ctl)
    ensures s'.current == r.current && |s'.tasks| == |r.tasks| && s'.tasks[s'.current] == r.tasks[r.current]
  {
  }

  lemma FilledKernelProcs(b: Boot, k: K, s': Sys, i: nat)
    requires ProcsInv(b, k) && SlotFilled(k.sys, s', i, EnterKernel)
    ensures ProcsInv(b, k.(sys := s'))
  {
    var t := s'.tasks[i];
    MorePids(k.procs, k.nextPid, k.sys.nextId, k.nextPid, s'.nextId);
    AddKernelLink(k.procs, k.sys.tasks, k.sys.mem.v.kdir, k.nextPid, k.sys.nextId, i, t);
    AddKernelSpaces(k.procs, k.sys.tasks, k.sys.mem.v, i, t);
  }

  /** Creating a kernel thread keeps the invariant. */
  lemma CreateThreadInv(b: Boot, k: K)
    requires Inv(b, k)
    ensures Inv(b, k.(sys := CreateThread(k.sys, EnterKernel).0))
  {
    var r := Reap(k.sys, 1);
    var (s', id) := CreateThread(k.sys, EnterKernel);
    CreateThreadKeeps(b.base, k.sys, EnterKernel);
    QuietKeeps(b, k, r);
    ReapCurrent(k.sys);
    CurrentStays(r, s', FirstUnused(r.tasks, 1), EnterKernel);
    if id.Some? {
      FilledKernelProcs(b, k.(sys := r), s', FirstUnused(r.tasks, 1));
    }
  }

  // ---------------------------------------------------------------- user_spawn

  /** The pid `user_spawn` records as parent, 0 if the caller is not a user process. */
  function ParentPid(k: K): nat
    requires k.sys.current < |k.sys.tasks|
  {
    var me := FindTask(k.procs, Current(k).id, 0);
    if me < |k.procs| then k.procs[me].pid else 0
  }

  lemma ParentRuns(b: Boot, k: K)
    requires Inv(b, k) && (Current(k).ctl == InUser || Current(k).ctl == InKernel)
    ensures ParentPid(k) == 0 || (ParentPid(k) < k.nextPid && HasActive(k.procs, ParentPid(k)))
  {
    var me := FindTask(k.procs, Current(k).id, 0);
    if me < |k.procs| {
      assert Fits(Current(k), k.procs[me], me, k.sys.mem.v.kdir);
      assert RecordOk(k.procs[me], k.nextPid, k.sys.nextId);
    }
  }

  /** Only the pid counter moves. */
  lemma PidBurned(b: Boot, k: K)
    requires ProcsInv(b, k)
    ensures ProcsInv(b, k.(nextPid := k.nextPid + 1))
  {
    MorePids(k.procs, k.nextPid, k.sys.nextId, k.nextPid + 1, k.sys.nextId);
    LogNextPid(k.log, k.procs, k.nextPid);
  }

  /** Adding record, task and space to a state that is consistent without all three. */
  lemma SpawnedProcs(b: Boot, k: K, r: Sys, s2: Sys, i: nat, slot: nat, q: Process)
    requires ProcsInv(b, k.(sys := r.(mem := r.mem.(v := WithoutSpace(r.mem.v, q.space)))))
    requires TasksOk(r.tasks, r.current, r.nextId, r.mem.v.kdir) && SlotFilled(r, s2, i, EnterUser)
    requires q.space in r.mem.v.spaces && q.space != r.mem.v.kdir && q.space != 0 && r.mem.v.spaces[q.space].leaves == map[]
    requires forall j :: 0 <= j < |r.tasks| && r.tasks[j].state != Unused ==> r.tasks[j].space != q.space
    requires slot < |k.procs| && k.procs[slot].state == Vacant
    requires q.state == Created && q.pid == k.nextPid && q.taskId == r.nextId && q.pages == []
    requires IsCString(q.path)
    requires q.parent == 0 || (q.parent < k.nextPid && HasActive(k.procs, q.parent))
    ensures ProcsInv(b, K(s2, k.procs[slot := q], k.nextPid + 1, k.log + [Spawned(q.parent, k.nextPid)]))
  {
    var t := s2.tasks[i];
    var v0 := WithoutSpace(r.mem.v, q.space);
    AddTable(k.procs, k.nextPid, r.nextId, slot, q);
    AddUserLink(k.procs, r.tasks, r.mem.v.kdir, k.nextPid, r.nextId, slot, q, i, t);
    AddUserSpaces(k.procs, r.tasks, v0, r.mem.v, slot, q, i, t);
    AddTexts(b.archive, k.procs, v0, r.mem.v, r.mem.data, slot, q);
    LogSpawn(k.log, k.procs, k.nextPid, slot, q);
    HistoryPlain(k.log, Spawned(q.parent, k.nextPid));
  }

  /** `user_spawn` once the space `d` exists, in the system state `s1`. */
  function SpawnWith(k: K, path: Bytes, slot: nat, s1: Sys, d: nat): K
    requires k.sys.current < |k.sys.tasks| && slot < |k.procs| && 1 <= |s1.tasks|
  {
    var (s2, id) := CreateThread(s1, EnterUser);
    if id == None then
      var (p3, v3) := Destroy(s2.mem.p, s2.mem.v, d);
      k.(nextPid := k.nextPid + 1, sys := s2.(mem := s2.mem.(p := p3, v := v3)))
    else
      K(s2, k.procs[slot := Process(Created, k.nextPid, id.value, ParentPid(k), d, 0, 0, path, [])],
        k.nextPid + 1, k.log + [Spawned(ParentPid(k), k.nextPid)])
  }

  /** The part of `user_spawn` after the checks. */
  function SpawnIn(k: K, path: Bytes, slot: nat): K
    requires k.sys.current < |k.sys.tasks| && k.sys.mem.v.kdir in k.sys.mem.v.spaces && slot < |k.procs|
  {
    var (p, v, d) := Create(k.sys.mem.p, k.sys.mem.v);
    if d == 0 then k.(nextPid := k.nextPid + 1)
    else SpawnWith(k, path, slot, k.sys.(mem := k.sys.mem.(p := p, v := v)), d)
  }

  lemma SpawnUnfold(b: Boot, k: K, path: Bytes)
    requires k.sys.current < |k.sys.tasks| && k.sys.mem.v.kdir in k.sys.mem.v.spaces
    ensures var slot := FirstVacant(k.procs, 0);
      Spawn(b, k, path).0 ==
        if |path| == 0 || |path| >= PATH_SIZE || Find(b.archive, path) == None || slot == |k.procs| then k
        else SpawnIn(k, path, slot)
  {
  }

  /** The two ways thread creation can go once the space `d` exists. */
  lemma SpawnThread(b: Boot, k: K, s1: Sys, d: nat) returns (r: Sys, s2: Sys, id: Option<nat>)
    requires Inv(b, k) && SysInv(b.base, s1) && d != 0 && d !in k.sys.mem.v.spaces
    requires s1 == k.sys.(mem := k.sys.mem.(p := s1.mem.p, v := WithSpace(k.sys.mem.v, d)))
    ensures (s2, id) == CreateThread(s1, EnterUser)
    ensures SysInv(b.base, r) && SysInv(b.base, s2) && s2.tasks[s2.current].state == Running
    ensures ProcsInv(b, k.(sys := r.(mem := r.mem.(v := WithoutSpace(r.mem.v, d)))))
    ensures d in r.mem.v.spaces && d != r.mem.v.kdir && r.mem.v.spaces[d].leaves == map[]
    ensures forall i :: 0 <= i < |r.tasks| && r.tasks[i].state != Unused ==> r.tasks[i].space != d
    ensures r.nextId == k.sys.nextId
    ensures id == None ==> s2 == r
    ensures id.Some? ==> id.value == k.sys.nextId && SlotFilled(r, s2, FirstUnused(r.tasks, 1), EnterUser)
  {
    r := Reap(s1, 1);
    var c := CreateThread(s1, EnterUser);
    s2, id := c.0, c.1;
    ReapKeeps(b.base, s1, 1);
    CreateThreadKeeps(b.base, s1, EnterUser);
    ReapBeside(k.sys, s1, r, d);
    QuietKeeps(b, k, r.(mem := r.mem.(v := WithoutSpace(r.mem.v, d))));
    ReapCurrent(s1);
    CurrentStays(r, s2, FirstUnused(r.tasks, 1), EnterUser);
  }

  /** The process-table invariant looks only at these parts of the state. */
  lemma ProcsInvSame(b: Boot, k: K, k': K)
    requires ProcsInv(b, k) && k'.procs == k.procs && k'.nextPid == k.nextPid && k'.log == k.log
    requires k'.sys.tasks == k.sys.tasks && k'.sys.nextId == k.sys.nextId && k'.sys.mem.v == k.sys.mem.v
    requires k'.sys.mem.data == k.sys.mem.data
    ensures ProcsInv(b, k')
  {
  }

  /** Undoing the address space after `kthread_create` failed. */
  lemma SpawnFails(b: Boot, k: K, r: Sys, d: nat) returns (s3: Sys)
    requires SysInv(b.base, r) && r.tasks[r.current].state == Running
    requires ProcsInv(b, k.(sys := r.(mem := r.mem.(v := WithoutSpace(r.mem.v, d)))))
    requires d in r.mem.v.spaces && d != r.mem.v.kdir && r.mem.v.spaces[d].leaves == map[]
    requires forall i :: 0 <= i < |r.tasks| && r.tasks[i].state != Unused ==> r.tasks[i].space != d
    ensures s3 == r.(mem := r.mem.(p := Destroy(r.mem.p, r.mem.v, d).0, v := Destroy(r.mem.p, r.mem.v, d).1))
    ensures SysInv(b.base, s3) && s3.tasks[s3.current].state == Running
    ensures ProcsInv(b, k.(nextPid := k.nextPid + 1, sys := s3))
  {
    SysDestroy(b.base, r, d);
    s3 := r.(mem := r.mem.(p := Destroy(r.mem.p, r.mem.v, d).0, v := Destroy(r.mem.p, r.mem.v, d).1));
    var k0 := k.(sys := r.(mem := r.mem.(v := WithoutSpace(r.mem.v, d))));
    PidBurned(b, k0);
    ProcsInvSame(b, k0.(nextPid := k0.nextPid + 1), k.(nextPid := k.nextPid + 1, sys := s3));
  }

  /** The record `user_spawn` fills in. */
  function NewRecord(k: K, path: Bytes, d: nat, id: nat): Process
    requires k.sys.current < |k.sys.tasks|
  {
    Process(Created, k.nextPid, id, ParentPid(k), d, 0, 0, path, [])
  }

  lemma SpawnWithUnfold(k: K, path: Bytes, slot: nat, s1: Sys, d: nat, s2: Sys, id: Option<nat>)
    requires k.sys.current < |k.sys.tasks| && slot < |k.procs| && 1 <= |s1.tasks|
    requires (s2, id) == CreateThread(s1, EnterUser)
    ensures SpawnWith(k, path, slot, s1, d) ==
      if id == None then
        k.(nextPid := k.nextPid + 1, sys := s2.(mem := s2.mem.(p := Destroy(s2.mem.p, s2.mem.v, d).0, v := Destroy(s2.mem.p, s2.mem.v, d).1)))
      else
        K(s2, k.procs[slot := NewRecord(k, path, d, id.value)], k.nextPid + 1, k.log + [Spawned(ParentPid(k), k.nextPid)])
  {
  }

  lemma SpawnWithInv(b: Boot, k: K, path: Bytes, slot: nat, s1: Sys, d: nat) returns (k': K)
    requires Inv(b, k) && slot < |k.procs| && k.procs[slot].state == Vacant
    requires (Current(k).ctl == InUser || Current(k).ctl == InKernel) && IsCString(path)
    requires SysInv(b.base, s1) && d != 0 && d !in k.sys.mem.v.spaces
    requires s1 == k.sys.(mem := k.sys.mem.(p := s1.mem.p, v := WithSpace(k.sys.mem.v, d)))
    ensures k' == SpawnWith(k, path, slot, s1, d) && Inv(b, k')
  {
    var r, s2, id := SpawnThread(b, k, s1, d);
    SpawnWithUnfold(k, path, slot, s1, d, s2, id);
    if id == None {
      var s3 := SpawnFails(b, k, r, d);
      k' := k.(nextPid := k.nextPid + 1, sys := s3);
    } else {
      ParentRuns(b, k);
      var q := NewRecord(k, path, d, id.value);
      SpawnedProcs(b, k, r, s2, FirstUnused(r.tasks, 1), slot, q);
      k' := K(s2, k.procs[slot := q], k.nextPid + 1, k.log + [Spawned(q.parent, k.nextPid)]);
    }
  }

  lemma SpawnInIs(k: K, path: Bytes, slot: nat)
    requires k.sys.current < |k.sys.tasks| && k.sys.mem.v.kdir in k.sys.mem.v.spaces && slot < |k.procs|
    ensures var c := Create(k.sys.mem.p, k.sys.mem.v);
      SpawnIn(k, path, slot) == if c.2 == 0 then k.(nextPid := k.nextPid + 1)
                                else SpawnWith(k, path, slot, k.sys.(mem := k.sys.mem.(p := c.0, v := c.1)), c.2)
  {
    hide Create; hide SpawnWith;
  }

  lemma SpawnReady(b: Boot, k: K)
    requires Inv(b, k)
    ensures SysInv(b.base, k.sys) && k.sys.current < |k.sys.tasks| && k.sys.mem.v.kdir in k.sys.mem.v.spaces
  {
    hide ProcsInv;
  }

  lemma SpawnSpace(b: Boot, k: K, path: Bytes, slot: nat) returns (s1: Sys, d: nat)
    requires Inv(b, k) && slot < |k.procs|
    ensures d != 0 ==> SysInv(b.base, s1) && d !in k.sys.mem.v.spaces
    ensures d != 0 ==> s1 == k.sys.(mem := k.sys.mem.(p := s1.mem.p, v := WithSpace(k.sys.mem.v, d)))
    ensures SpawnIn(k, path, slot) == if d == 0 then k.(nextPid := k.nextPid + 1) else SpawnWith(k, path, slot, s1, d)
  {
    SpawnReady(b, k);
    hide *;
    var c := Create(k.sys.mem.p, k.sys.mem.v);
    CreateSys(b.base, k.sys);
    SpawnInIs(k, path, slot);
    s1, d := k.sys.(mem := k.sys.mem.(p := c.0, v := c.1)), c.2;
  }

  lemma SpawnInInv(b: Boot, k: K, path: Bytes, slot: nat)
    requires Inv(b, k) && slot < |k.procs| && k.procs[slot].state == Vacant
    requires (Current(k).ctl == InUser || Current(k).ctl == InKernel) && IsCString(path)
    ensures Inv(b, SpawnIn(k, path, slot))
  {
    var s1, d := SpawnSpace(b, k, path, slot);
    if d == 0 {
      PidBurned(b, k);
    } else {
      var k' := SpawnWithInv(b, k, path, slot, s1, d);
    }
  }

  /** `user_spawn` keeps the invariant on every path, success or failure. */
  lemma SpawnInv(b: Boot, k: K, path: Bytes)
    requires Inv(b, k) && (Current(k).ctl == InUser || Current(k).ctl == InKernel) && IsCString(path)
    ensures Inv(b, Spawn(b, k, path).0)
  {
    SpawnUnfold(b, k, path);
    var slot := FirstVacant(k.procs, 0);
    if slot < |k.procs| {
      SpawnInInv(b, k, path, slot);
    }
  }
}
