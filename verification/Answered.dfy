/** A wait whose child has exited is answered: the parent gets to run, and the status is still
    there for it. */
module Answered {
  import opened Common
  import opened VmSpec
  import opened SchedSpec
  import opened Machine
  import opened ProcInv
  import opened StepProofs
  import opened SpawnProofs
  import opened RunProofs
  import opened Theorems
  import opened Fairness
  import opened Delivery

  /** Task `t` waits for the process whose record, in slot `c`, says that it has exited. */
  predicate ChildDone(k: K, t: nat, c: nat)
  {
    && t < |k.sys.tasks| && Live(k.sys.tasks[t]) && k.sys.tasks[t].ctl.InWait?
    && var ctl := k.sys.tasks[t].ctl;
    && ctl.slot < |k.procs| && k.procs[ctl.slot].state == Active && k.procs[ctl.slot].taskId == k.sys.tasks[t].id
    && c < |k.procs| && k.procs[c].state == Exited
    && k.procs[c].pid == ctl.pid && k.procs[c].parent == k.procs[ctl.slot].pid
  }

  // ---------------------------------------------------------------- one step of another task

  lemma ExitKeeps(k: K, status: Word32, me: nat, c: nat)
    requires Shaped(k) && TableOk(k.procs, k.nextPid, k.sys.nextId)
    requires var s := FindTask(k.procs, Current(k).id, 0); s < |k.procs| && s != me
    requires me < |k.procs| && c < |k.procs| && k.procs[me].state == Active && k.procs[c].state == Exited
    requires k.procs[c].parent == k.procs[me].pid && k.procs[c].taskId != Current(k).id
    ensures |Exit(k, status).procs| == |k.procs| && Exit(k, status).procs[c] == k.procs[c]
  {
    hide Yield; hide UserPages.FreePages;
    var s := FindTask(k.procs, Current(k).id, 0);
    UniqueRecord(k.procs, k.nextPid, k.sys.nextId, me);
    assert k.procs[s].pid != k.procs[me].pid;
    assert s != c;
  }

  lemma PollKeeps(k: K, pid: nat, slot: nat, me: nat, c: nat)
    requires Shaped(k) && TableOk(k.procs, k.nextPid, k.sys.nextId) && slot < |k.procs|
    requires k.procs[slot].state == Active && slot != me
    requires me < |k.procs| && c < |k.procs| && k.procs[me].state == Active && k.procs[c].state == Exited
    requires k.procs[c].parent == k.procs[me].pid
    ensures |Poll(k, pid, slot).procs| == |k.procs| && Poll(k, pid, slot).procs[c] == k.procs[c]
  {
    hide Yield;
    UniqueRecord(k.procs, k.nextPid, k.sys.nextId, me);
    assert k.procs[slot].pid != k.procs[me].pid;
  }

  lemma SpawnKeeps(b: Boot, k: K, path: seq<Byte>, c: nat)
    requires Shaped(k) && c < |k.procs| && k.procs[c].state != Vacant
    ensures |Spawn(b, k, path).0.procs| == |k.procs| && Spawn(b, k, path).0.procs[c] == k.procs[c]
  {
    hide CreateThread; hide Create; hide Destroy; hide Archive.Find;
  }

  lemma ExecKeeps(b: Boot, k: K, c: nat)
    requires Shaped(k) && c < |k.procs| && k.procs[c].taskId != Current(k).id
    ensures |Exec(b, k).procs| == |k.procs| && Exec(b, k).procs[c] == k.procs[c]
  {
    hide PrepareExec; hide Destroy; hide UserPages.FreePages; hide Yield;
  }

  /** The record of the current task is its own, and not one of the two. */
  lemma OtherRecord(b: Boot, k: K, t: nat, c: nat)
    requires Inv(b, k) && ChildDone(k, t, c) && k.sys.current != t
    ensures Current(k).id != k.sys.tasks[t].id && k.procs[c].taskId != Current(k).id
    ensures k.procs[k.sys.tasks[t].ctl.slot].taskId != Current(k).id
    ensures TableOk(k.procs, k.nextPid, k.sys.nextId)
  {
    InvTable(b, k);
    DistinctIds(b.base, k.sys, t);
    CurrentTask(b, k);
    hide SysInv; hide TableOk; hide SpacesOk; hide TextsOk; hide LogOk; hide HistoryOk;
    assert k.procs[c].taskId == Current(k).id ==> Fits(Current(k), k.procs[c], c, k.sys.mem.v.kdir);
  }

  lemma DistinctIds(base: Base, s: Sys, t: nat)
    requires SysInv(base, s) && t < |s.tasks| && t != s.current && Live(s.tasks[t])
    ensures s.tasks[s.current].id != s.tasks[t].id
  {
  }

  /** A step of any other task leaves the exited child's record, and the waiting parent. */
  lemma DoneStep(b: Boot, k: K, a: Action, t: nat, c: nat)
    requires Inv(b, k) && Shaped(k) && Enabled(k, a) && ChildDone(k, t, c) && k.sys.current != t
    ensures var k' := Step(b, k, a);
      && |k'.sys.tasks| == |k.sys.tasks| && ChildDone(k', t, c) && SameTask(k.sys.tasks[t], k'.sys.tasks[t])
      && k'.procs[c] == k.procs[c] && k'.procs[k.sys.tasks[t].ctl.slot].pid == k.procs[k.sys.tasks[t].ctl.slot].pid
  {
    OtherRecord(b, k, t, c);
    WaiterStep(b, k, a, t);
    StepRecords(b, k, a);
    ChildStep(b, k, a, t, c);
    hide Inv; hide Step; hide TableOk; hide Enabled; hide Shaped;
    assert RecordStep(k, Step(b, k, a), k.sys.tasks[t].ctl.slot);
  }

  lemma ChildStep(b: Boot, k: K, a: Action, t: nat, c: nat)
    requires Inv(b, k) && Shaped(k) && Enabled(k, a) && ChildDone(k, t, c) && k.sys.current != t
    ensures |Step(b, k, a).procs| == |k.procs| && Step(b, k, a).procs[c] == k.procs[c]
  {
    OtherRecord(b, k, t, c);
    if !a.DoSpawn? && !a.DoExec? && !a.DoExit? && !a.DoPoll? {
      hide Inv;
      TableUntouched(b, k, a);
    } else {
      TableTouched(b, k, a, t, c);
    }
  }

  lemma TableUntouched(b: Boot, k: K, a: Action)
    requires Shaped(k) && Enabled(k, a) && !a.DoSpawn? && !a.DoExec? && !a.DoExit? && !a.DoPoll?
    ensures Step(b, k, a).procs == k.procs
  {
    hide Yield; hide MarkZombie; hide CreateThread; hide Fill; hide Map; hide Unmap; hide Spawn; hide Exec; hide Exit; hide Poll;
  }

  lemma TableTouched(b: Boot, k: K, a: Action, t: nat, c: nat)
    requires Inv(b, k) && Shaped(k) && Enabled(k, a) && ChildDone(k, t, c) && k.sys.current != t
    requires a.DoSpawn? || a.DoExec? || a.DoExit? || a.DoPoll?
    ensures |Step(b, k, a).procs| == |k.procs| && Step(b, k, a).procs[c] == k.procs[c]
  {
    OtherRecord(b, k, t, c);
    var me := k.sys.tasks[t].ctl.slot;
    StepIs(b, k, a);
    hide Inv; hide Spawn; hide Exec; hide Exit; hide Poll; hide TableOk; hide Step; hide FindTask;
    match a
    case DoSpawn(path) => SpawnKeeps(b, k, path, c);
    case DoExec => ExecKeeps(b, k, c);
    case DoExit(status) => ExitStep(b, k, status, me, c);
    case DoPoll => PollStep(b, k, me, c);
  }

  lemma StepIs(b: Boot, k: K, a: Action)
    requires Shaped(k) && Enabled(k, a)
    ensures a.DoSpawn? ==> Step(b, k, a) == Spawn(b, k, a.path).0
    ensures a.DoExec? ==> Step(b, k, a) == Exec(b, k)
    ensures a.DoExit? ==> Step(b, k, a) == Exit(k, a.status) && Current(k).ctl == InUser
    ensures a.DoPoll? ==>
              Current(k).ctl.InWait? && Step(b, k, a) == Poll(k, Current(k).ctl.pid, Current(k).ctl.slot)
  {
    hide Spawn; hide Exec; hide Exit; hide Poll;
  }

  lemma ExitStep(b: Boot, k: K, status: Word32, me: nat, c: nat)
    requires Inv(b, k) && Shaped(k) && Current(k).ctl == InUser && TableOk(k.procs, k.nextPid, k.sys.nextId)
    requires me < |k.procs| && c < |k.procs| && k.procs[me].state == Active && k.procs[c].state == Exited
    requires k.procs[c].parent == k.procs[me].pid && k.procs[c].taskId != Current(k).id && k.procs[me].taskId != Current(k).id
    ensures |Exit(k, status).procs| == |k.procs| && Exit(k, status).procs[c] == k.procs[c]
  {
    CurrentRecord(b, k);
    hide Inv; hide TableOk; hide Exit;
    ExitKeeps(k, status, me, c);
  }

  lemma PollStep(b: Boot, k: K, me: nat, c: nat)
    requires Inv(b, k) && Shaped(k) && Current(k).ctl.InWait? && TableOk(k.procs, k.nextPid, k.sys.nextId)
    requires me < |k.procs| && c < |k.procs| && k.procs[me].state == Active && k.procs[c].state == Exited
    requires k.procs[c].parent == k.procs[me].pid && k.procs[me].taskId != Current(k).id
    ensures var k' := Poll(k, Current(k).ctl.pid, Current(k).ctl.slot);
      |k'.procs| == |k.procs| && k'.procs[c] == k.procs[c]
  {
    CurrentRecord(b, k);
    hide Inv; hide TableOk; hide Poll; hide FindTask; hide Shaped;
    PollKeeps(k, Current(k).ctl.pid, Current(k).ctl.slot, me, c);
  }

  // ---------------------------------------------------------------- the answer

  /** Once the parent runs, its next turn delivers the status; and a turn is all it can do. */
  lemma DoneAnswers(b: Boot, k: K, t: nat, c: nat)
    requires Inv(b, k) && ChildDone(k, t, c) && k.sys.current == t
    ensures var ctl := Current(k).ctl;
      && Poll(k, ctl.pid, ctl.slot).log == k.log + [Collected(k.procs[ctl.slot].pid, ctl.pid, k.procs[c].status)]
      && Answer(k, ctl.pid, ctl.slot) == Some(k.procs[c].status)
    ensures forall a :: Enabled(k, a) ==> a == DoPoll || a.DoFill?
  {
    InvTable(b, k);
    hide Inv; hide Poll; hide Answer; hide TableOk; hide Enabled; hide FindPid; hide FindTask;
    UniqueRecord(k.procs, k.nextPid, k.sys.nextId, c);
    PollCollects(k, Current(k).ctl.pid, Current(k).ctl.slot, c);
    forall a | Enabled(k, a) ensures a == DoPoll || a.DoFill? { WaitersPoll(k, a); }
  }

  lemma PollCollects(k: K, pid: nat, slot: nat, c: nat)
    requires k.sys.current < |k.sys.tasks| && slot < |k.procs| && c < |k.procs| && FindPid(k.procs, pid, 0) == c
    requires k.procs[c].parent == k.procs[slot].pid && k.procs[c].state == Exited
    ensures Poll(k, pid, slot).log == k.log + [Collected(k.procs[slot].pid, pid, k.procs[c].status)]
    ensures Answer(k, pid, slot) == Some(k.procs[c].status)
  {
    hide Yield; hide FindPid;
  }

  lemma WaitersPoll(k: K, a: Action)
    requires k.sys.current < |k.sys.tasks| && Current(k).ctl.InWait? && Enabled(k, a)
    ensures a == DoPoll || a.DoFill?
  {
  }

  /** What the run has come to when the parent is chosen. */
  ghost predicate ChosenAt(b: Boot, k: K, acts: seq<Action>, n: nat, t: nat, c: nat)
    requires ChildDone(k, t, c)
  {
    && n <= |acts| && Possible(b, k, acts[..n])
    && var k1 := After(b, k, acts[..n]);
    && k1.sys.current == t && |k1.sys.tasks| == |k.sys.tasks| && ChildDone(k1, t, c) && Inv(b, k1)
    && SameTask(k.sys.tasks[t], k1.sys.tasks[t]) && k1.procs[c] == k.procs[c]
    && k1.procs[k.sys.tasks[t].ctl.slot].pid == k.procs[k.sys.tasks[t].ctl.slot].pid
  }

  /** Along a run that chooses the parent, it is chosen within its distance in yields, and the
      child's record has waited for it. */
  lemma {:induction false} ChosenInTime(b: Boot, k: K, acts: seq<Action>, t: nat, c: nat) returns (n: nat)
    requires Inv(b, k) && Possible(b, k, acts) && ChildDone(k, t, c) && k.sys.current < |k.sys.tasks|
    requires !NeverChosen(b, k, acts, t)
    ensures ChosenAt(b, k, acts, n, t, c)
    ensures YieldCount(b, k, acts[..n]) <= Distance(|k.sys.tasks|, k.sys.current, t)
    decreases |acts|
  {
    DoneParts(k, t, c);
    hide *;
    if k.sys.current == t {
      n := 0;
      ChosenNow(b, k, acts, t, c);
    } else {
      RunHead(b, k, acts, t);
      var a, k1 := acts[0], Step(b, k, acts[0]);
      OthersLive(b, k, t);
      DoneStep(b, k, a, t, c);
      StepInv(b, k, a);
      Closer(b, k, a, t);
      var m := ChosenInTime(b, k1, acts[1..], t, c);
      n := m + 1;
      ChosenLater(b, k, acts, m, t, c);
    }
  }

  lemma DoneParts(k: K, t: nat, c: nat)
    requires ChildDone(k, t, c)
    ensures t < |k.sys.tasks| && Live(k.sys.tasks[t]) && k.sys.tasks[t].ctl.InWait? && k.sys.tasks[t].ctl.slot < |k.procs| && c < |k.procs|
  {
  }

  lemma ChosenNow(b: Boot, k: K, acts: seq<Action>, t: nat, c: nat)
    requires Inv(b, k) && ChildDone(k, t, c) && k.sys.current == t
    ensures ChosenAt(b, k, acts, 0, t, c) && Possible(b, k, acts[..0]) && YieldCount(b, k, acts[..0]) == 0
  {
    hide Inv;
    assert acts[..0] == [];
  }

  /** The run after the first step, seen from before it. */
  lemma ChosenLater(b: Boot, k: K, acts: seq<Action>, m: nat, t: nat, c: nat)
    requires Possible(b, k, acts) && acts != [] && ChildDone(k, t, c)
    requires var k1 := Step(b, k, acts[0]);
      && ChildDone(k1, t, c) && ChosenAt(b, k1, acts[1..], m, t, c) && |k1.sys.tasks| == |k.sys.tasks|
      && SameTask(k.sys.tasks[t], k1.sys.tasks[t]) && k1.procs[c] == k.procs[c]
      && k.sys.tasks[t].ctl.slot < |k1.procs|
      && k1.procs[k.sys.tasks[t].ctl.slot].pid == k.procs[k.sys.tasks[t].ctl.slot].pid
    ensures ChosenAt(b, k, acts, m + 1, t, c)
    ensures YieldCount(b, k, acts[..m + 1]) ==
            (if Yields(b, k, acts[0]) then 1 else 0) + YieldCount(b, Step(b, k, acts[0]), acts[1..][..m])
  {
    FirstEnabled(b, k, acts);
    hide Inv; hide Step; hide Yields; hide Possible; hide After; hide YieldCount; hide Shaped; hide Enabled; hide ChildDone;
    DoneParts(k, t, c);
    PrefixStep(b, k, acts, m);
    SameTaskTwice(k.sys.tasks[t], Step(b, k, acts[0]).sys.tasks[t],
                  After(b, Step(b, k, acts[0]), acts[1..][..m]).sys.tasks[t]);
  }

  lemma RunHead(b: Boot, k: K, acts: seq<Action>, t: nat)
    requires Possible(b, k, acts) && k.sys.current != t && !NeverChosen(b, k, acts, t)
    ensures acts != [] && Shaped(k) && Enabled(k, acts[0])
    ensures Possible(b, Step(b, k, acts[0]), acts[1..]) && !NeverChosen(b, Step(b, k, acts[0]), acts[1..], t)
  {
    hide Step; hide Shaped; hide Enabled;
  }

  lemma FirstEnabled(b: Boot, k: K, acts: seq<Action>)
    requires Possible(b, k, acts) && acts != []
    ensures Shaped(k) && Enabled(k, acts[0]) && Possible(b, Step(b, k, acts[0]), acts[1..])
  {
    hide Step; hide Shaped; hide Enabled;
  }

  lemma OthersLive(b: Boot, k: K, t: nat)
    requires Inv(b, k) && t < |k.sys.tasks| && t != k.sys.current && Live(k.sys.tasks[t])
    ensures k.sys.tasks[t].state == Runnable
  {
    hide ProcsInv;
  }

  /** A step brings a runnable task no farther away, and closer if it yields. */
  lemma Closer(b: Boot, k: K, a: Action, t: nat)
    requires Shaped(k) && Enabled(k, a) && t < |k.sys.tasks| && t != k.sys.current && k.sys.tasks[t].state == Runnable
    ensures var k' := Step(b, k, a);
      && |k'.sys.tasks| == |k.sys.tasks| && k'.sys.current < |k.sys.tasks|
      && Distance(|k.sys.tasks|, k'.sys.current, t) + (if Yields(b, k, a) then 1 else 0)
         <= Distance(|k.sys.tasks|, k.sys.current, t)
  {
    hide Step; hide Yields; hide Enabled;
    if Yields(b, k, a) { YieldSteps(b, k, a, t); } else { OtherSteps(b, k, a, t); }
  }

  lemma PrefixStep(b: Boot, k: K, acts: seq<Action>, m: nat)
    requires Possible(b, k, acts) && m < |acts| && Possible(b, Step(b, k, acts[0]), acts[1..][..m])
    ensures Possible(b, k, acts[..m + 1])
    ensures After(b, k, acts[..m + 1]) == After(b, Step(b, k, acts[0]), acts[1..][..m])
    ensures YieldCount(b, k, acts[..m + 1]) ==
            (if Yields(b, k, acts[0]) then 1 else 0) + YieldCount(b, Step(b, k, acts[0]), acts[1..][..m])
  {
    hide Step; hide Yields;
    assert acts[..m + 1][0] == acts[0] && acts[..m + 1][1..] == acts[1..][..m];
  }

  lemma SameTaskTwice(u: Task, u1: Task, u2: Task)
    requires SameTask(u, u1) && SameTask(u1, u2)
    ensures SameTask(u, u2)
  {
  }

  /** The status reaches the waiting parent.  When the awaited child has exited, then in any run of
      at least n - 1 yields, n being the number of task slots, the parent is chosen by the
      (n - 1)-th yield, whatever the others do until then; its turn there delivers the child's
      status, and it can do nothing before that turn. */
  lemma WaitAnswered(b: Boot, k: K, acts: seq<Action>, t: nat, c: nat) returns (n: nat)
    requires Reachable(b, k) && Possible(b, k, acts) && ChildDone(k, t, c) && k.sys.current < |k.sys.tasks|
    requires YieldCount(b, k, acts) >= |k.sys.tasks| - 1
    ensures n <= |acts| && Possible(b, k, acts[..n]) && YieldCount(b, k, acts[..n]) <= |k.sys.tasks| - 1
    ensures var k1 := After(b, k, acts[..n]);
      var ctl := k.sys.tasks[t].ctl;
      && k1.sys.current == t < |k1.sys.tasks| && k1.sys.tasks[t].ctl == ctl && ctl.slot < |k1.procs|
      && Poll(k1, ctl.pid, ctl.slot).log
         == k1.log + [Collected(k.procs[ctl.slot].pid, ctl.pid, k.procs[c].status)]
      && Answer(k1, ctl.pid, ctl.slot) == Some(k.procs[c].status)
      && forall a :: Enabled(k1, a) ==> a == DoPoll || a.DoFill?
  {
    ReachableInv(b, k);
    hide Reachable; hide Inv;
    if k.sys.current != t {
      OthersLive(b, k, t);
      BoundedWaiting(b, k, acts, t);
    }
    n := ChosenInTime(b, k, acts, t, c);
    DoneAnswers(b, After(b, k, acts[..n]), t, c);
  }
}
