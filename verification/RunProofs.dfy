/** The remaining steps, and the theorem over whole runs. */
module RunProofs {
  import opened Common
  import opened Archive
  import opened PmmSpec
  import opened VmSpec
  import opened Owners
  import opened UserPages
  import opened SchedSpec
  import opened SchedProofs
  import opened Machine
  import opened ProcInv
  import opened ProcProofs
  import opened LogProofs
  import opened StepProofs
  import opened StartProofs
  import opened SpawnProofs
  import HeapSpec

  // ---------------------------------------------------------------- moving the current task along

  /** Only the place of task `cur` changed. */
  lemma MovedSpaces(procs: seq<Process>, tasks: seq<Task>, v: Vm, cur: nat, ctl: Control)
    requires SpacesOk(procs, tasks, v) && cur < |tasks|
    ensures SpacesOk(procs, tasks[cur := tasks[cur].(ctl := ctl)], v)
  {
    var tasks' := tasks[cur := tasks[cur].(ctl := ctl)];
    forall s, i | 0 <= s < |procs| && 0 <= i < |tasks'| && Owning(procs[s]) && tasks'[i].state != Unused && tasks'[i].space == procs[s].space
      ensures procs[s].state == Active && Live(tasks'[i]) && tasks'[i].id == procs[s].taskId
    {
      assert tasks'[i].id == tasks[i].id && tasks'[i].state == tasks[i].state && tasks'[i].space == tasks[i].space;
    }
    forall x | x in v.spaces && x != v.kdir ensures HeldBy(procs, tasks', x) {
      assert HeldBy(procs, tasks, x);
      if !(exists s :: 0 <= s < |procs| && Owning(procs[s]) && procs[s].space == x) {
        var i :| 0 <= i < |tasks| && tasks[i].state == Zombie && tasks[i].space == x;
        assert tasks'[i].state == Zombie && tasks'[i].space == x;
      }
    }
  }

  lemma MovedLink(procs: seq<Process>, tasks: seq<Task>, kdir: nat, cur: nat, ctl: Control)
    requires LinkOk(procs, tasks, kdir) && 1 <= cur < |tasks| && Live(tasks[cur])
    requires UserControl(ctl) <==> UserControl(tasks[cur].ctl)
    requires !UserControl(ctl) ==> ctl != Idle
    requires forall s :: 0 <= s < |procs| && procs[s].state != Vacant && procs[s].taskId == tasks[cur].id ==>
               Fits(tasks[cur].(ctl := ctl), procs[s], s, kdir)
    ensures LinkOk(procs, tasks[cur := tasks[cur].(ctl := ctl)], kdir)
  {
    var tasks' := tasks[cur := tasks[cur].(ctl := ctl)];
    forall s | 0 <= s < |procs| && Owning(procs[s]) ensures HasTask(tasks', procs[s]) {
      assert HasTask(tasks, procs[s]);
      var i :| 1 <= i < |tasks| && Live(tasks[i]) && tasks[i].id == procs[s].taskId;
      assert Live(tasks'[i]) && tasks'[i].id == procs[s].taskId;
    }
    forall i | 1 <= i < |tasks'| && Live(tasks'[i]) && UserControl(tasks'[i].ctl) ensures HasRecord(procs, tasks'[i]) {
      assert HasRecord(procs, tasks[i]);
    }
    forall s, i | 0 <= s < |procs| && 0 <= i < |tasks'| && procs[s].state != Vacant && Live(tasks'[i]) && tasks'[i].id == procs[s].taskId
      ensures Fits(tasks'[i], procs[s], s, kdir)
    {
      if i != cur { assert Fits(tasks[i], procs[s], s, kdir); }
    }
  }

  /** Moving the current task to another place that suits its record. */
  lemma MovedInv(b: Boot, k: K, ctl: Control)
    requires Inv(b, k) && k.sys.current != 0
    requires UserControl(ctl) <==> UserControl(Current(k).ctl)
    requires !UserControl(ctl) ==> ctl != Idle
    requires forall s :: 0 <= s < |k.procs| && k.procs[s].state != Vacant && k.procs[s].taskId == Current(k).id ==>
               Fits(Current(k).(ctl := ctl), k.procs[s], s, k.sys.mem.v.kdir)
    ensures Inv(b, k.(sys := SetControl(k.sys, ctl)))
  {
    SetControlKeeps(b.base, k.sys, ctl);
    MovedLink(k.procs, k.sys.tasks, k.sys.mem.v.kdir, k.sys.current, ctl);
    MovedSpaces(k.procs, k.sys.tasks, k.sys.mem.v, k.sys.current, ctl);
  }

  lemma CurrentTask(b: Boot, k: K)
    requires Inv(b, k)
    ensures k.sys.current < |k.sys.tasks| && Live(Current(k))
  {
    hide ProcsInv;
  }

  /** The record of a task in user mode or inside wait is its own, unique, and running. */
  lemma MyRecord(b: Boot, k: K, s: nat)
    requires Inv(b, k) && (Current(k).ctl == InUser || Current(k).ctl.InWait?)
    requires s < |k.procs| && k.procs[s].state != Vacant && k.procs[s].taskId == Current(k).id
    ensures k.procs[s].state == Active && k.procs[s].space == Current(k).space && s == FindTask(k.procs, Current(k).id, 0)
    ensures Current(k).ctl.InWait? ==> Current(k).ctl.slot == s
  {
    CurrentTask(b, k);
    hide SysInv; hide SpacesOk; hide TextsOk; hide LogOk; hide HistoryOk; hide RecordOk; hide HasActive; hide HasTask;
    assert Fits(Current(k), k.procs[s], s, k.sys.mem.v.kdir);
  }

  lemma WaitInv(b: Boot, k: K, pid: nat)
    requires Inv(b, k) && Current(k).ctl == InUser
    ensures Inv(b, Wait(k, pid))
  {
    CurrentRecord(b, k);
    var me := FindTask(k.procs, Current(k).id, 0);
    forall s | 0 <= s < |k.procs| && k.procs[s].state != Vacant && k.procs[s].taskId == Current(k).id
      ensures Fits(Current(k).(ctl := InWait(pid, me)), k.procs[s], s, k.sys.mem.v.kdir)
    {
      MyRecord(b, k, s);
    }
    MovedInv(b, k, InWait(pid, me));
  }

  lemma LeaveWait(b: Boot, k: K)
    requires Inv(b, k) && Current(k).ctl.InWait?
    ensures Inv(b, k.(sys := SetControl(k.sys, InUser)))
  {
    CurrentRecord(b, k);
    forall s | 0 <= s < |k.procs| && k.procs[s].state != Vacant && k.procs[s].taskId == Current(k).id
      ensures Fits(Current(k).(ctl := InUser), k.procs[s], s, k.sys.mem.v.kdir)
    {
      MyRecord(b, k, s);
    }
    MovedInv(b, k, InUser);
  }

  /** No record names a kernel thread. */
  lemma NoRecord(b: Boot, k: K)
    requires Inv(b, k) && !UserControl(Current(k).ctl)
    ensures forall s :: 0 <= s < |k.procs| && k.procs[s].state != Vacant ==> k.procs[s].taskId != Current(k).id
    ensures k.sys.current != 0 ==> Current(k).space == k.sys.mem.v.kdir
  {
    forall s | 0 <= s < |k.procs| && k.procs[s].state != Vacant ensures k.procs[s].taskId != Current(k).id {
      assert k.procs[s].taskId == Current(k).id ==> Fits(Current(k), k.procs[s], s, k.sys.mem.v.kdir);
    }
  }

  lemma EnterThreadInv(b: Boot, k: K)
    requires Inv(b, k) && Current(k).ctl == EnterKernel
    ensures Inv(b, k.(sys := SetControl(k.sys, InKernel)))
  {
    NoRecord(b, k);
    MovedInv(b, k, InKernel);
  }

  // ---------------------------------------------------------------- the end of a kernel thread

  lemma DeadThreadLink(procs: seq<Process>, tasks: seq<Task>, kdir: nat, cur: nat, dead: Task)
    requires LinkOk(procs, tasks, kdir) && cur < |tasks| && dead.state == Zombie
    requires forall s :: 0 <= s < |procs| && procs[s].state != Vacant ==> procs[s].taskId != tasks[cur].id
    ensures LinkOk(procs, tasks[cur := dead], kdir)
  {
    var tasks' := tasks[cur := dead];
    forall s | 0 <= s < |procs| && Owning(procs[s]) ensures HasTask(tasks', procs[s]) {
      assert HasTask(tasks, procs[s]);
      EndHasTask(tasks, cur, dead, procs[s]);
    }
    forall i | 1 <= i < |tasks'| && Live(tasks'[i]) && UserControl(tasks'[i].ctl) ensures HasRecord(procs, tasks'[i]) {
      assert HasRecord(procs, tasks[i]);
    }
  }

  lemma DeadThreadSpaces(procs: seq<Process>, tasks: seq<Task>, v: Vm, cur: nat, dead: Task)
    requires SpacesOk(procs, tasks, v) && cur < |tasks| && Live(tasks[cur]) && dead.state == Zombie && dead.space == v.kdir
    ensures SpacesOk(procs, tasks[cur := dead], v)
  {
    var tasks' := tasks[cur := dead];
    forall s, i | 0 <= s < |procs| && 0 <= i < |tasks'| && Owning(procs[s]) && tasks'[i].state != Unused && tasks'[i].space == procs[s].space
      ensures procs[s].state == Active && Live(tasks'[i]) && tasks'[i].id == procs[s].taskId
    {
      assert RecordSpaceOk(procs[s], v);
      assert i != cur && tasks'[i] == tasks[i];
    }
    forall x | x in v.spaces && x != v.kdir ensures HeldBy(procs, tasks', x) {
      assert HeldBy(procs, tasks, x);
      if !(exists s :: 0 <= s < |procs| && Owning(procs[s]) && procs[s].space == x) {
        var i :| 0 <= i < |tasks| && tasks[i].state == Zombie && tasks[i].space == x;
        assert tasks'[i] == tasks[i];
      }
    }
  }

  lemma ExitThreadInv(b: Boot, k: K)
    requires Inv(b, k) && Current(k).ctl == InKernel && k.sys.current != 0
    ensures Inv(b, Die(k))
  {
    var cur := k.sys.current;
    var dead := k.sys.tasks[cur].(state := Zombie, ctl := Idle);
    NoRecord(b, k);
    MarkZombieKeeps(b.base, k.sys);
    DeadThreadLink(k.procs, k.sys.tasks, k.sys.mem.v.kdir, cur, dead);
    DeadThreadSpaces(k.procs, k.sys.tasks, k.sys.mem.v, cur, dead);
    YieldInv(b, k.(sys := MarkZombie(k.sys)));
  }

  // ---------------------------------------------------------------- collecting a status

  lemma CollectTable(procs: seq<Process>, nextPid: nat, nextId: nat, c: nat)
    requires TableOk(procs, nextPid, nextId) && c < |procs| && procs[c].state == Exited
    ensures TableOk(procs[c := NO_PROC], nextPid, nextId)
  {
    var procs' := procs[c := NO_PROC];
    forall s | 0 <= s < |procs'| && procs'[s].state != Vacant && procs'[s].parent != 0 ensures HasActive(procs', procs'[s].parent) {
      assert HasActive(procs, procs[s].parent);
      var j :| 0 <= j < |procs| && procs[j].state == Active && procs[j].pid == procs[s].parent;
      assert procs'[j] == procs[j];
    }
  }

  lemma CollectLink(procs: seq<Process>, tasks: seq<Task>, kdir: nat, c: nat)
    requires LinkOk(procs, tasks, kdir) && c < |procs| && procs[c].state == Exited
    ensures LinkOk(procs[c := NO_PROC], tasks, kdir)
  {
    var procs' := procs[c := NO_PROC];
    forall s | 0 <= s < |procs'| && Owning(procs'[s]) ensures HasTask(tasks, procs'[s]) {
      assert HasTask(tasks, procs[s]);
    }
    forall i | 1 <= i < |tasks| && Live(tasks[i]) && UserControl(tasks[i].ctl) ensures HasRecord(procs', tasks[i]) {
      assert HasRecord(procs, tasks[i]);
      var s :| 0 <= s < |procs| && procs[s].state != Vacant && procs[s].taskId == tasks[i].id;
      assert Fits(tasks[i], procs[s], s, kdir);
      assert procs'[s] == procs[s];
    }
  }

  lemma CollectSpaces(procs: seq<Process>, tasks: seq<Task>, v: Vm, c: nat)
    requires SpacesOk(procs, tasks, v) && c < |procs| && procs[c].state == Exited
    ensures SpacesOk(procs[c := NO_PROC], tasks, v)
  {
    var procs' := procs[c := NO_PROC];
    forall x | x in v.spaces && x != v.kdir ensures HeldBy(procs', tasks, x) {
      assert HeldBy(procs, tasks, x);
      if s :| 0 <= s < |procs| && Owning(procs[s]) && procs[s].space == x {
        assert procs'[s] == procs[s];
      }
    }
  }

  lemma CollectTexts(archive: Bytes, procs: seq<Process>, v: Vm, data: map<nat, Bytes>, c: nat)
    requires TextsOk(archive, procs, v, data) && c < |procs|
    ensures TextsOk(archive, procs[c := NO_PROC], v, data)
  {
    var procs' := procs[c := NO_PROC];
    forall s | 0 <= s < |procs'| && procs'[s].state == Active ensures TextOk(archive, procs'[s], v, data) {
      assert TextOk(archive, procs[s], v, data);
    }
  }

  lemma CollectLog(procs: seq<Process>, nextPid: nat, nextId: nat, log: seq<Event>, c: nat)
    requires TableOk(procs, nextPid, nextId) && LogOk(log, procs, nextPid) && HistoryOk(log)
    requires c < |procs| && procs[c].state == Exited
    ensures var e := Collected(procs[c].parent, procs[c].pid, procs[c].status);
      LogOk(log + [e], procs[c := NO_PROC], nextPid) && HistoryOk(log + [e])
  {
    var procs' := procs[c := NO_PROC];
    var e := Collected(procs[c].parent, procs[c].pid, procs[c].status);
    assert RecordOk(procs[c], nextPid, nextId);
    PidRange(procs, nextPid, nextId);
    assert Gone(procs', nextPid, procs[c].pid);
    LogGrows(log, e, procs, procs', nextPid);
    HistoryCollect(log, procs, nextPid, c);
  }

  lemma CollectInv(b: Boot, k: K, c: nat)
    requires Inv(b, k) && c < |k.procs| && k.procs[c].state == Exited
    ensures Inv(b, k.(procs := k.procs[c := NO_PROC],
                      log := k.log + [Collected(k.procs[c].parent, k.procs[c].pid, k.procs[c].status)]))
  {
    CollectTable(k.procs, k.nextPid, k.sys.nextId, c);
    CollectLink(k.procs, k.sys.tasks, k.sys.mem.v.kdir, c);
    CollectSpaces(k.procs, k.sys.tasks, k.sys.mem.v, c);
    CollectTexts(b.archive, k.procs, k.sys.mem.v, k.sys.mem.data, c);
    CollectLog(k.procs, k.nextPid, k.sys.nextId, k.log, c);
  }

  lemma NoteInv(b: Boot, k: K, e: Event)
    requires Inv(b, k) && e.WaitFailed?
    ensures Inv(b, k.(log := k.log + [e]))
  {
    hide SysInv; hide TableOk; hide LinkOk; hide SpacesOk; hide TextsOk;
    HistoryPlain(k.log, e);
    hide HistoryOk;
    var log' := k.log + [e];
    assert forall j :: 0 <= j < |k.log| ==> log'[j] == k.log[j];
    assert forall x :: x in k.log ==> x in log';
  }

  /** One turn of the wait loop keeps the invariant. */
  lemma PollInv(b: Boot, k: K)
    requires Inv(b, k) && Current(k).ctl.InWait?
    ensures Current(k).ctl.slot < |k.procs|
    ensures Inv(b, Poll(k, Current(k).ctl.pid, Current(k).ctl.slot))
  {
    CurrentRecord(b, k);
    var pid, slot := Current(k).ctl.pid, Current(k).ctl.slot;
    var me := k.procs[slot].pid;
    var c := FindPid(k.procs, pid, 0);
    if c == |k.procs| || k.procs[c].parent != me {
      LeaveWait(b, k);
      NoteInv(b, k.(sys := SetControl(k.sys, InUser)), WaitFailed(me, pid));
    } else if k.procs[c].state == Exited {
      LeaveWait(b, k);
      CollectInv(b, k.(sys := SetControl(k.sys, InUser)), c);
    } else {
      YieldInv(b, k);
    }
  }

  // ---------------------------------------------------------------- the processor: caching and storing

  lemma FillSys(base: Base, s: Sys, x: nat)
    requires SysInv(base, s)
    ensures SysInv(base, s.(mem := s.mem.(v := Fill(s.mem.v, x))))
    ensures Fill(s.mem.v, x).spaces == s.mem.v.spaces && Fill(s.mem.v, x).kdir == s.mem.v.kdir
  {
    hide StacksOk; hide SpaceOk; hide KernelHalf; hide Lookup; hide TasksOk; hide StackSet;
    var v' := Fill(s.mem.v, x);
    FillKeepsInv(s.mem.v, x);
    SameFrames(s.mem.p, Claims(base.reserved, s.h.pages, {}), s.mem.v, Claims(base.reserved, s.h.pages, {}), v');
    KernelHalfSame(base, s.mem.v, v');
  }

  /** The two differ at most in the kernel's own space. */
  ghost predicate UserSame(v: Vm, v': Vm)
  {
    && v'.kdir == v.kdir && v'.cr3 == v.cr3 && v'.spaces.Keys == v.spaces.Keys
    && forall d :: d in v.spaces && d != v.kdir ==> v'.spaces[d] == v.spaces[d]
  }

  lemma SpacesVm(procs: seq<Process>, tasks: seq<Task>, v: Vm, v': Vm)
    requires SpacesOk(procs, tasks, v) && UserSame(v, v')
    ensures SpacesOk(procs, tasks, v')
  {
    forall s | 0 <= s < |procs| && Owning(procs[s]) ensures RecordSpaceOk(procs[s], v') {
      assert RecordSpaceOk(procs[s], v);
    }
  }

  lemma TextsVm(archive: Bytes, procs: seq<Process>, tasks: seq<Task>, v: Vm, v': Vm, data: map<nat, Bytes>)
    requires TextsOk(archive, procs, v, data) && SpacesOk(procs, tasks, v) && UserSame(v, v')
    ensures TextsOk(archive, procs, v', data)
  {
    forall s | 0 <= s < |procs| && procs[s].state == Active ensures TextOk(archive, procs[s], v', data) {
      assert RecordSpaceOk(procs[s], v);
      assert TextOk(archive, procs[s], v, data);
    }
  }

  lemma FillInv(b: Boot, k: K, x: nat)
    requires Inv(b, k)
    ensures Inv(b, k.(sys := k.sys.(mem := k.sys.mem.(v := Fill(k.sys.mem.v, x)))))
  {
    hide SpacesOk; hide TextsOk; hide TableOk; hide LinkOk; hide LogOk; hide HistoryOk;
    FillSys(b.base, k.sys, x);
    hide SysInv;
    SpacesVm(k.procs, k.sys.tasks, k.sys.mem.v, Fill(k.sys.mem.v, x));
    TextsVm(b.archive, k.procs, k.sys.tasks, k.sys.mem.v, Fill(k.sys.mem.v, x), k.sys.mem.data);
  }

  // ---------------------------------------------------------------- the kernel's own pages

  /** The kernel's space after a page beside the direct map came or went. */
  ghost predicate KernelMoved(v: Vm, v': Vm, vpn: nat)
    requires v.kdir in v.spaces
  {
    && UserSame(v, v')
    && var s, s' := v.spaces[v.kdir], v'.spaces[v.kdir];
    && (forall x :: x in s'.leaves && x != vpn ==> x in s.leaves && s'.leaves[x] == s.leaves[x])
    && (forall x :: x in s.leaves && x != vpn ==> x in s'.leaves)
    && (vpn in s'.leaves ==> !s'.leaves[vpn].user || (vpn in s.leaves && s'.leaves[vpn] == s.leaves[vpn]))
    && (forall i :: i in s.tables ==>
          i in s'.tables && s'.tables[i].frame == s.tables[i].frame && Narrower(s.tables[i], s'.tables[i]))
  }

  lemma KernelHalfMoved(base: Base, v: Vm, v': Vm, vpn: nat)
    requires KernelHalf(base, v) && Beside(vpn) && KernelMoved(v, v', vpn)
    ensures KernelHalf(base, v')
  {
    var s, s' := v.spaces[v.kdir], v'.spaces[v.kdir];
    forall f: nat | f < DIRECT_PAGES
      ensures DirectPage(f) in s'.leaves && s'.leaves[DirectPage(f)] == Mapping(f, true, false) {
      assert DirectPage(f) in s.leaves && DirectPage(f) != vpn;
    }
    forall d | d in v'.spaces ensures HasDirect(v'.spaces[d]) { assert HasDirect(v.spaces[d]); }
  }

  lemma MovedTaskSpaces(tasks: seq<Task>, v: Vm, v': Vm)
    requires TaskSpaces(tasks, v) && UserSame(v, v')
    ensures TaskSpaces(tasks, v')
  {
  }

  lemma KernelMovedInv(b: Boot, k: K, p: Pmm, v: Vm, vpn: nat)
    requires Inv(b, k) && Beside(vpn) && KernelMoved(k.sys.mem.v, v, vpn)
    requires MemInv(Mem(p, v, k.sys.mem.data), Claims(b.base.reserved, k.sys.h.pages, {}))
    ensures Inv(b, k.(sys := k.sys.(mem := k.sys.mem.(p := p, v := v))))
  {
    hide MemInv; hide TasksOk; hide StacksOk; hide HeapSmall; hide KernelHalf; hide TaskSpaces; hide SpacesOk; hide TextsOk;
    hide TableOk; hide LinkOk; hide LogOk; hide HistoryOk; hide HeapSpec.HeapInv; hide KernelMoved;
    InvShaped(b, k);
    MovedUser(k.sys.mem.v, v, vpn);
    KernelHalfMoved(b.base, k.sys.mem.v, v, vpn);
    MovedTaskSpaces(k.sys.tasks, k.sys.mem.v, v);
    SpacesVm(k.procs, k.sys.tasks, k.sys.mem.v, v);
    TextsVm(b.archive, k.procs, k.sys.tasks, k.sys.mem.v, v, k.sys.mem.data);
  }

  lemma MovedUser(v: Vm, v': Vm, vpn: nat)
    requires v.kdir in v.spaces && KernelMoved(v, v', vpn)
    ensures UserSame(v, v')
  {
  }

  lemma UnmapMoves(v: Vm, vpn: nat)
    requires v.kdir in v.spaces
    ensures KernelMoved(v, Unmap(v, v.kdir, vpn).0, vpn)
  {
  }

  lemma MapMoves(p: Pmm, v: Vm, vpn: nat, f: nat, present: bool, w: bool)
    requires v.kdir in v.spaces
    ensures KernelMoved(v, Map(p, v, v.kdir, vpn, f, present, w, false).1, vpn)
  {
    hide AllocDirect;
  }

  lemma MovesTwice(v: Vm, v1: Vm, v2: Vm, vpn: nat)
    requires v.kdir in v.spaces && KernelMoved(v, v1, vpn) && KernelMoved(v1, v2, vpn)
    ensures KernelMoved(v, v2, vpn)
  {
  }

  /** `vmm_map_page` beside the direct map keeps the invariant. */
  lemma KernelMapInv(b: Boot, k: K, vpn: nat, f: nat, present: bool, w: bool)
    requires Inv(b, k) && Beside(vpn)
    ensures Inv(b, KernelMapPage(k, vpn, f, present, w))
  {
    var m, c := k.sys.mem, Claims(b.base.reserved, k.sys.h.pages, {});
    var v1 := Unmap(m.v, m.v.kdir, vpn).0;
    UnmapMoves(m.v, vpn);
    UnmapKeepsInv(m.v, m.v.kdir, vpn);
    KernelUnmapPartition(m.p, c, m.v, vpn);
    var (p, v, ok) := Map(m.p, v1, m.v.kdir, vpn, f, present, w, false);
    MapMoves(m.p, v1, vpn, f, present, w);
    MovesTwice(m.v, v1, v, vpn);
    MapKeepsInv(m.p, v1, m.v.kdir, vpn, f, present, w, false);
    KernelMapPartition(m.p, c, v1, vpn, f, present, w, false);
    KernelMovedInv(b, k, p, v, vpn);
  }

  /** `vmm_unmap_page` beside the direct map keeps the invariant. */
  lemma KernelUnmapInv(b: Boot, k: K, vpn: nat)
    requires Inv(b, k) && Beside(vpn)
    ensures Inv(b, KernelUnmapPage(k, vpn))
  {
    var m, c := k.sys.mem, Claims(b.base.reserved, k.sys.h.pages, {});
    UnmapMoves(m.v, vpn);
    UnmapKeepsInv(m.v, m.v.kdir, vpn);
    KernelUnmapPartition(m.p, c, m.v, vpn);
    KernelMovedInv(b, k, m.p, Unmap(m.v, m.v.kdir, vpn).0, vpn);
  }

  /** In a user space the only page a program may write is one of its own. */
  lemma WritableIsOwn(base: Base, v: Vm, d: nat, x: nat)
    requires VmInv(v) && KernelHalf(base, v) && d in v.spaces && d != v.kdir
    requires Lookup(v, d, x).Some? && Lookup(v, d, x).value.user && Lookup(v, d, x).value.writable
    ensures x in v.spaces[d].leaves && v.spaces[d].leaves[x].frame == Lookup(v, d, x).value.frame && v.spaces[d].leaves[x].writable
  {
  }

  lemma WritablePage(archive: Bytes, q: Process, v: Vm, data: map<nat, Bytes>, x: nat)
    requires TextOk(archive, q, v, data) && PagesMatch(v.spaces[q.space].leaves, q.pages)
    requires x in v.spaces[q.space].leaves && v.spaces[q.space].leaves[x].writable
    ensures v.spaces[q.space].leaves[x].frame == q.pages[1].frame
  {
    var i :| 0 <= i < |q.pages| && q.pages[i].vpn == x;
  }

  /** The frame a running process may store to is its stack page. */
  lemma StoreTarget(b: Boot, k: K, x: nat, s: nat)
    requires Inv(b, k) && Current(k).ctl == InUser && s == FindTask(k.procs, Current(k).id, 0) < |k.procs|
    requires Translate(k.sys.mem.v, x).Some?
    requires Translate(k.sys.mem.v, x).value.user && Translate(k.sys.mem.v, x).value.writable
    ensures k.procs[s].state == Active && TextOk(b.archive, k.procs[s], k.sys.mem.v, k.sys.mem.data)
    ensures Translate(k.sys.mem.v, x).value.frame == k.procs[s].pages[1].frame
  {
    MyRecord(b, k, s);
    var v := k.sys.mem.v;
    var q := k.procs[s];
    NotDead(k.procs, k.sys.tasks, v, s);
    assert TextOk(b.archive, q, v, k.sys.mem.data);
    assert Translate(v, x) == Lookup(v, v.cr3, x);
    WritableIsOwn(b.base, v, q.space, x);
    WritablePage(b.archive, q, v, k.sys.mem.data, x);
  }

  /** Distinct pages of distinct processes are distinct frames. */
  lemma DistinctFrames(p: Pmm, c: Claims, v: Vm, d1: nat, x1: nat, d2: nat, x2: nat)
    requires Partition(p, c, v) && d1 in v.spaces && d2 in v.spaces && d1 != v.kdir && d2 != v.kdir
    requires x1 in v.spaces[d1].leaves && x2 in v.spaces[d2].leaves
    requires v.spaces[d1].leaves[x1].frame == v.spaces[d2].leaves[x2].frame
    ensures d1 == d2 && x1 == x2
  {
    assert FrameOf(c, v, UserLeaf(d1, x1)) == FrameOf(c, v, UserLeaf(d2, x2));
  }

  /** Storing to the stack page of one process leaves every program text, and every other
      page of every process, as it was. */
  lemma StoreTexts(archive: Bytes, procs: seq<Process>, tasks: seq<Task>, p: Pmm, c: Claims, v: Vm, data: map<nat, Bytes>, s: nat, page: Bytes)
    requires SpacesOk(procs, tasks, v) && TextsOk(archive, procs, v, data) && Partition(p, c, v)
    requires s < |procs| && procs[s].state == Active && |procs[s].pages| == 2 && |page| == PAGE_SIZE
    ensures TextsOk(archive, procs, v, data[procs[s].pages[1].frame := page])
  {
    var f := procs[s].pages[1].frame;
    assert TextOk(archive, procs[s], v, data);
    assert RecordSpaceOk(procs[s], v);
    forall t | 0 <= t < |procs| && procs[t].state == Active ensures TextOk(archive, procs[t], v, data[f := page]) {
      assert TextOk(archive, procs[t], v, data);
      assert RecordSpaceOk(procs[t], v);
      if procs[t].pages[0].frame == f {
        DistinctFrames(p, c, v, procs[t].space, CODE_VPN, procs[s].space, STACK_VPN);
      }
    }
  }

  /** Only the bytes of one process's stack page change. */
  lemma StorePage(b: Boot, k: K, s: nat, page: Bytes) returns (k': K)
    requires Inv(b, k) && s < |k.procs| && k.procs[s].state == Active && |k.procs[s].pages| == 2 && |page| == PAGE_SIZE
    ensures k' == k.(sys := k.sys.(mem := k.sys.mem.(data := k.sys.mem.data[k.procs[s].pages[1].frame := page])))
    ensures Inv(b, k')
  {
    StoreTexts(b.archive, k.procs, k.sys.tasks, k.sys.mem.p, Claims(b.base.reserved, k.sys.h.pages, {}), k.sys.mem.v, k.sys.mem.data, s, page);
    k' := k.(sys := k.sys.(mem := k.sys.mem.(data := k.sys.mem.data[k.procs[s].pages[1].frame := page])));
  }

  lemma InvShaped(b: Boot, k: K)
    requires Inv(b, k)
    ensures Shaped(k)
  {
    if Current(k).ctl.InWait? {
      CurrentRecord(b, k);
    }
  }

  lemma StoreInv(b: Boot, k: K, x: nat, offset: nat, value: Byte)
    requires Inv(b, k) && Current(k).ctl == InUser
    ensures Inv(b, Store(k, x, offset, value))
  {
    hide SysInv;
    hide ProcsInv;
    InvShaped(b, k);
    var t := Translate(k.sys.mem.v, x);
    if t.Some? && t.value.user && t.value.writable && t.value.frame in k.sys.mem.data && offset < |k.sys.mem.data[t.value.frame]| {
      CurrentRecord(b, k);
      var s := FindTask(k.procs, Current(k).id, 0);
      StoreTarget(b, k, x, s);
      var page := k.sys.mem.data[t.value.frame];
      var k' := StorePage(b, k, s, page[..offset] + [value] + page[offset + 1..]);
    }
  }

  // ---------------------------------------------------------------- every step, every run

  /** Every step of every task keeps the invariant. */
  lemma StepInv(b: Boot, k: K, a: Action)
    requires Inv(b, k) && Shaped(k) && Enabled(k, a)
    ensures Inv(b, Step(b, k, a))
  {
    hide SysInv; hide ProcsInv;
    match a
    case DoSpawn(path) => SpawnInv(b, k, path);
    case DoExec => ExecInv(b, k);
    case DoExit(status) => ExitInv(b, k, status);
    case DoWait(pid) => WaitInv(b, k, pid);
    case DoPoll => PollInv(b, k);
    case DoYield => YieldInv(b, k);
    case DoCreateThread => CreateThreadInv(b, k);
    case DoEnterThread => EnterThreadInv(b, k);
    case DoExitThread => ExitThreadInv(b, k);
    case DoFill(x) => FillInv(b, k, x);
    case DoStore(x, offset, value) => StoreInv(b, k, x, offset, value);
    case DoKernelMap(vpn, f, present, w) => KernelMapInv(b, k, vpn, f, present, w);
    case DoKernelUnmap(vpn) => KernelUnmapInv(b, k, vpn);
  }
}
