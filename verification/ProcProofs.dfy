/** What every process operation keeps. */
module ProcProofs {
  import opened Archive
  import opened VmSpec
  import opened SchedSpec
  import opened SchedProofs
  import opened Machine
  import opened ProcInv

  // ---------------------------------------------------------------- yielding and reaping

  lemma QuietHasTask(tasks: seq<Task>, tasks': seq<Task>, q: Process)
    requires |tasks'| == |tasks| && (forall i :: 0 <= i < |tasks| ==> Unnoticed(tasks[i], tasks'[i]))
    requires HasTask(tasks, q)
    ensures HasTask(tasks', q)
  {
    var i :| 1 <= i < |tasks| && Live(tasks[i]) && tasks[i].id == q.taskId;
    assert Unnoticed(tasks[i], tasks'[i]);
  }

  lemma QuietLink(procs: seq<Process>, tasks: seq<Task>, tasks': seq<Task>, kdir: nat)
    requires LinkOk(procs, tasks, kdir)
    requires |tasks'| == |tasks| && (forall i :: 0 <= i < |tasks| ==> Unnoticed(tasks[i], tasks'[i]))
    ensures LinkOk(procs, tasks', kdir)
  {
    forall s | 0 <= s < |procs| && Owning(procs[s]) ensures HasTask(tasks', procs[s]) {
      assert HasTask(tasks, procs[s]);
      QuietHasTask(tasks, tasks', procs[s]);
    }
    forall i | 1 <= i < |tasks'| && Live(tasks'[i]) && UserControl(tasks'[i].ctl) ensures HasRecord(procs, tasks'[i]) {
      assert Unnoticed(tasks[i], tasks'[i]);
      assert HasRecord(procs, tasks[i]);
    }
    forall s, i | 0 <= s < |procs| && 0 <= i < |tasks'| && procs[s].state != Vacant && Live(tasks'[i]) && tasks'[i].id == procs[s].taskId
      ensures Fits(tasks'[i], procs[s], s, kdir)
    {
      assert Unnoticed(tasks[i], tasks'[i]);
    }
    forall i | 1 <= i < |tasks'| && Live(tasks'[i]) && !UserControl(tasks'[i].ctl)
      ensures tasks'[i].space == kdir && tasks'[i].ctl != Idle
    {
      assert Unnoticed(tasks[i], tasks'[i]);
    }
  }

  /** A space held by a running record is not the space of a dead task. */
  lemma RecordSpaceStays(procs: seq<Process>, tasks: seq<Task>, v: Vm, tasks': seq<Task>, v': Vm, s: nat)
    requires SpacesOk(procs, tasks, v) && s < |procs| && Owning(procs[s]) && |tasks'| == |tasks|
    requires SpaceQuiet(v, v', tasks, tasks', procs[s].space)
    ensures procs[s].space in v'.spaces && v'.spaces[procs[s].space] == v.spaces[procs[s].space]
  {
    assert RecordSpaceOk(procs[s], v);
    assert !DeadSpace(tasks, tasks', procs[s].space);
  }

  lemma QuietHeld(procs: seq<Process>, tasks: seq<Task>, tasks': seq<Task>, d: nat)
    requires |tasks'| == |tasks| && (forall i :: 0 <= i < |tasks| ==> Unnoticed(tasks[i], tasks'[i]))
    requires HeldBy(procs, tasks, d) && !DeadSpace(tasks, tasks', d)
    ensures HeldBy(procs, tasks', d)
  {
    if !(exists s :: 0 <= s < |procs| && Owning(procs[s]) && procs[s].space == d) {
      var i :| 0 <= i < |tasks| && tasks[i].state == Zombie && tasks[i].space == d;
      assert Unnoticed(tasks[i], tasks'[i]);
      assert tasks'[i] == tasks[i];
    }
  }

  lemma QuietSpaces(procs: seq<Process>, tasks: seq<Task>, v: Vm, tasks': seq<Task>, v': Vm)
    requires SpacesOk(procs, tasks, v) && v'.kdir == v.kdir
    requires |tasks'| == |tasks| && (forall i :: 0 <= i < |tasks| ==> Unnoticed(tasks[i], tasks'[i]))
    requires forall d :: SpaceQuiet(v, v', tasks, tasks', d)
    ensures SpacesOk(procs, tasks', v')
  {
    forall s | 0 <= s < |procs| && Owning(procs[s]) ensures RecordSpaceOk(procs[s], v') {
      assert RecordSpaceOk(procs[s], v);
      assert SpaceQuiet(v, v', tasks, tasks', procs[s].space);
      RecordSpaceStays(procs, tasks, v, tasks', v', s);
    }
    forall s, i | 0 <= s < |procs| && 0 <= i < |tasks'| && Owning(procs[s]) && tasks'[i].state != Unused && tasks'[i].space == procs[s].space
      ensures procs[s].state == Active && Live(tasks'[i]) && tasks'[i].id == procs[s].taskId
    {
      assert Unnoticed(tasks[i], tasks'[i]);
    }
    forall d | d in v'.spaces && d != v'.kdir ensures HeldBy(procs, tasks', d) {
      assert SpaceQuiet(v, v', tasks, tasks', d);
      assert HeldBy(procs, tasks, d);
      QuietHeld(procs, tasks, tasks', d);
    }
  }

  lemma QuietTexts(archive: Bytes, procs: seq<Process>, tasks: seq<Task>, v: Vm, tasks': seq<Task>, v': Vm, data: map<nat, Bytes>)
    requires SpacesOk(procs, tasks, v) && TextsOk(archive, procs, v, data) && |tasks'| == |tasks|
    requires forall d :: SpaceQuiet(v, v', tasks, tasks', d)
    ensures TextsOk(archive, procs, v', data)
  {
    forall s | 0 <= s < |procs| && procs[s].state == Active ensures TextOk(archive, procs[s], v', data) {
      assert TextOk(archive, procs[s], v, data);
      assert SpaceQuiet(v, v', tasks, tasks', procs[s].space);
      RecordSpaceStays(procs, tasks, v, tasks', v', s);
    }
  }

  /** Yielding and reaping are invisible to the process table: it stays consistent with
      tasks and spaces. */
  lemma QuietKeeps(b: Boot, k: K, sys': Sys)
    requires ProcsInv(b, k) && Quiet(k.sys, sys')
    ensures ProcsInv(b, k.(sys := sys'))
  {
    QuietLink(k.procs, k.sys.tasks, sys'.tasks, k.sys.mem.v.kdir);
    QuietSpaces(k.procs, k.sys.tasks, k.sys.mem.v, sys'.tasks, sys'.mem.v);
    QuietTexts(b.archive, k.procs, k.sys.tasks, k.sys.mem.v, sys'.tasks, sys'.mem.v, k.sys.mem.data);
  }

  lemma YieldInv(b: Boot, k: K)
    requires SysInv(b.base, k.sys) && ProcsInv(b, k)
    ensures Inv(b, k.(sys := Yield(k.sys)))
  {
    YieldKeeps(b.base, k.sys);
    QuietKeeps(b, k, Yield(k.sys));
  }
}
