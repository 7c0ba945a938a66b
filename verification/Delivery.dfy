/** Records, exit and wait over whole runs. */
module Delivery {
  import opened Common
  import opened Archive
  import opened VmSpec
  import opened SchedSpec
  import opened SchedProofs
  import opened Machine
  import opened ProcInv
  import opened StepProofs
  import opened SpawnProofs
  import opened RunProofs
  import opened Theorems
  import opened Fairness

  // ---------------------------------------------------------------- records over time

  /** A record's identity and memory are unchanged. */
  predicate SameProcess(q: Process, q': Process)
  {
    q'.pid == q.pid && q'.taskId == q.taskId && q'.space == q.space && q'.pages == q.pages && q'.path == q.path && q'.entry == q.entry
  }

  /** What one step may do to the record in slot `t`. */
  predicate RecordStep(k: K, k': K, t: nat)
    requires k.sys.current < |k.sys.tasks| && t < |k.procs| && t < |k'.procs|
  {
    var q, q' := k.procs[t], k'.procs[t];
    if q.state == Active && q.taskId != Current(k).id then q'.state == Active && SameProcess(q, q')
    else
    || q'.state == Vacant
    || (q.state == Vacant && q'.pid == k.nextPid && q'.taskId == k.sys.nextId && k'.nextPid == k.nextPid + 1 && k'.sys.nextId == k.sys.nextId + 1)
    || (q.state != Vacant && q'.pid == q.pid && q'.taskId == q.taskId && q'.path == q.path)
  }

  ghost predicate RecordSteps(k: K, k': K)
    requires k.sys.current < |k.sys.tasks|
  {
    && |k'.procs| == |k.procs| && k.nextPid <= k'.nextPid && k.sys.nextId <= k'.sys.nextId
    && forall t :: 0 <= t < |k.procs| ==> RecordStep(k, k', t)
  }

  lemma ExitRecords(k: K, status: Word32)
    requires Shaped(k) && FindTask(k.procs, Current(k).id, 0) < |k.procs|
    ensures RecordSteps(k, Exit(k, status))
  {
    var s := FindTask(k.procs, Current(k).id, 0);
    var q := k.procs[s];
    var k' := Exit(k, status);
    assert k'.procs == Retire(k.procs, s, status);
    forall t | 0 <= t < |k.procs| ensures RecordStep(k, k', t) {
      var q1 := if t == s then q.(state := Exited, status := status, pages := [], space := 0) else k.procs[t];
      assert k'.procs[t] == NO_PROC || k'.procs[t] == OrphanOne(q1, q.pid);
    }
  }

  lemma ExecRecords(b: Boot, k: K)
    requires Shaped(k) && FindTask(k.procs, Current(k).id, 0) < |k.procs|
    ensures RecordSteps(k, Exec(b, k))
  {
    var s := FindTask(k.procs, Current(k).id, 0);
    var k' := Exec(b, k);
    assert forall t :: 0 <= t < |k.procs| && t != s ==> k'.procs[t] == k.procs[t];
    assert k'.procs[s].state == Vacant ||
           (k'.procs[s].pid == k.procs[s].pid && k'.procs[s].taskId == k.procs[s].taskId && k'.procs[s].path == k.procs[s].path);
  }

  lemma CreateThreadIds(s: Sys, ctl: Control)
    requires 1 <= |s.tasks|
    ensures var (s', id) := CreateThread(s, ctl);
      if id == None then s'.nextId == s.nextId else s'.nextId == s.nextId + 1 && id.value == s.nextId
  {
  }

  lemma SpawnRecords(k: K, path: Bytes, slot: nat)
    requires Shaped(k) && slot < |k.procs| && k.procs[slot].state == Vacant
    ensures RecordSteps(k, SpawnIn(k, path, slot))
  {
    var (p, v, d) := Create(k.sys.mem.p, k.sys.mem.v);
    var s1 := k.sys.(mem := k.sys.mem.(p := p, v := v));
    CreateThreadIds(s1, EnterUser);
    var k' := SpawnIn(k, path, slot);
    assert forall t :: 0 <= t < |k.procs| && t != slot ==> k'.procs[t] == k.procs[t];
  }

  /** One step of any task: records come and go, but an occupied slot keeps its pid and task,
      and only a process's own steps touch its space and pages. */
  lemma StepRecords(b: Boot, k: K, a: Action)
    requires Inv(b, k) && Shaped(k) && Enabled(k, a)
    ensures RecordSteps(k, Step(b, k, a))
  {
    hide SysInv;
    hide ProcsInv;
    match a
    case DoSpawn(path) =>
      SpawnUnfold(b, k, path);
      var slot := FirstVacant(k.procs, 0);
      if slot < |k.procs| { SpawnRecords(k, path, slot); }
    case DoExec => CurrentRecord(b, k); ExecRecords(b, k);
    case DoExit(status) => CurrentRecord(b, k); ExitRecords(k, status);
    case DoCreateThread => CreateThreadIds(k.sys, EnterKernel);
    case _ =>
  }

  // ---------------------------------------------------------------- gone is gone

  lemma GoneStep(b: Boot, k: K, a: Action, pid: nat)
    requires Inv(b, k) && Shaped(k) && Enabled(k, a) && Gone(k.procs, k.nextPid, pid)
    ensures Gone(Step(b, k, a).procs, Step(b, k, a).nextPid, pid)
  {
    hide Inv;
    StepRecords(b, k, a);
    var k' := Step(b, k, a);
    forall t | 0 <= t < |k'.procs| ensures !(k'.procs[t].state != Vacant && k'.procs[t].pid == pid) {
      assert RecordStep(k, k', t);
    }
  }

  /** A pid that has left the table is never found again. */
  lemma {:induction false} GoneForever(b: Boot, k: K, acts: seq<Action>, pid: nat)
    requires Inv(b, k) && Possible(b, k, acts) && Gone(k.procs, k.nextPid, pid)
    ensures var k' := After(b, k, acts);
      Gone(k'.procs, k'.nextPid, pid) && FindPid(k'.procs, pid, 0) == |k'.procs|
    decreases |acts|
  {
    hide Inv;
    if acts != [] {
      GoneStep(b, k, acts[0], pid);
      StepInv(b, k, acts[0]);
      GoneForever(b, Step(b, k, acts[0]), acts[1..], pid);
    }
  }

  /** In every reachable state: a status is collected at most once; the collector is the
      process that spawned the child; the value is the one the child exited with, and that
      exit came before; and from then on the pid is never found again. */
  lemma CollectedOnce(b: Boot, k: K, acts: seq<Action>, j: nat)
    requires Reachable(b, k) && Possible(b, k, acts) && j < |k.log| && k.log[j].Collected?
    ensures DidExit(k.log[j].child, k.log[j].status) in k.log[..j]
    ensures Spawned(k.log[j].parent, k.log[j].child) in k.log[..j]
    ensures forall i :: 0 <= i < |k.log| && k.log[i].Collected? && k.log[i].child == k.log[j].child ==> i == j
    ensures forall i :: 0 <= i < |k.log| && k.log[i].DidExit? && k.log[i].pid == k.log[j].child ==> k.log[i].status == k.log[j].status
    ensures var k' := After(b, k, acts); FindPid(k'.procs, k.log[j].child, 0) == |k'.procs|
  {
    ReachableInv(b, k);
    assert EventOk(k.log[j], k.procs, k.nextPid);
    OneExit(k.log, j);
    GoneForever(b, k, acts, k.log[j].child);
  }

  lemma OneExit(log: seq<Event>, j: nat)
    requires HistoryOk(log) && j < |log| && log[j].Collected?
    ensures forall i :: 0 <= i < |log| && log[i].DidExit? && log[i].pid == log[j].child ==> log[i].status == log[j].status
    ensures forall i :: 0 <= i < |log| && log[i].Collected? && log[i].child == log[j].child ==> i == j
  {
    var e := DidExit(log[j].child, log[j].status);
    assert e in log[..j];
    var m :| 0 <= m < j && log[..j][m] == e;
    assert log[m] == e;
  }

  // ---------------------------------------------------------------- waiting

  /** What one turn of the wait loop answers.  It fails exactly when `pid` is not an
      uncollected child of the caller; it delivers exactly when that child has exited, and
      then delivers its status and forgets it; otherwise it yields and stays in the loop. */
  lemma PollOutcome(b: Boot, k: K)
    requires Reachable(b, k) && k.sys.current < |k.sys.tasks| && Current(k).ctl.InWait?
    ensures var t := Current(k);
      && t.ctl.slot < |k.procs|
      && var me := k.procs[t.ctl.slot];
      && me.state == Active && me.taskId == t.id
      && var k' := Poll(k, t.ctl.pid, t.ctl.slot);
      && (k'.log == k.log + [WaitFailed(me.pid, t.ctl.pid)] <==>
            !exists c :: 0 <= c < |k.procs| && k.procs[c].state != Vacant && k.procs[c].pid == t.ctl.pid && k.procs[c].parent == me.pid)
      && (forall status :: k'.log == k.log + [Collected(me.pid, t.ctl.pid, status)] <==>
            exists c :: 0 <= c < |k.procs| && k.procs[c].state == Exited && k.procs[c].pid == t.ctl.pid
              && k.procs[c].parent == me.pid && k.procs[c].status == status)
      && (k'.log != k.log || k'.sys == Yield(k.sys))
  {
    ReachableInv(b, k);
    CurrentRecord(b, k);
    PollAnswers(k, Current(k).ctl.pid, Current(k).ctl.slot, k.nextPid, k.sys.nextId);
  }

  lemma PollAnswers(k: K, pid: nat, slot: nat, nextPid: nat, nextId: nat)
    requires Shaped(k) && slot < |k.procs| && TableOk(k.procs, nextPid, nextId)
    ensures var me := k.procs[slot].pid;
      var k' := Poll(k, pid, slot);
      && (k'.log == k.log + [WaitFailed(me, pid)] <==>
            !exists c :: 0 <= c < |k.procs| && k.procs[c].state != Vacant && k.procs[c].pid == pid && k.procs[c].parent == me)
      && (forall status :: k'.log == k.log + [Collected(me, pid, status)] <==>
            exists c :: 0 <= c < |k.procs| && k.procs[c].state == Exited && k.procs[c].pid == pid && k.procs[c].parent == me && k.procs[c].status == status)
      && (k'.log != k.log || k'.sys == Yield(k.sys))
  {
    var c := FindPid(k.procs, pid, 0);
    var me := k.procs[slot].pid;
    forall e: Event ensures k.log + [e] != k.log && (forall f: Event :: k.log + [e] == k.log + [f] ==> e == f) {
      assert |k.log + [e]| == |k.log| + 1;
      forall f: Event | k.log + [e] == k.log + [f] ensures e == f {
        assert (k.log + [e])[|k.log|] == (k.log + [f])[|k.log|];
      }
    }
  }

  /** The caller sees one 32-bit word.  A delivered status can be told from the error exactly when
      it is not 0xffffffff. */
  lemma StatusTellable(b: Boot, k: K, status: Word32)
    requires Reachable(b, k) && k.sys.current < |k.sys.tasks| && Current(k).ctl.InWait? && Current(k).ctl.slot < |k.procs|
    requires var t, k' := Current(k), Poll(k, Current(k).ctl.pid, Current(k).ctl.slot);
      k'.log == k.log + [Collected(k.procs[t.ctl.slot].pid, t.ctl.pid, status)]
    ensures Answer(k, Current(k).ctl.pid, Current(k).ctl.slot) == Some(status)
    ensures Answer(k, Current(k).ctl.pid, Current(k).ctl.slot) != Some(SYS_ERR) <==> status != 0xFFFF_FFFF
  {
    var t := Current(k).ctl;
    var me := k.procs[t.slot].pid;
    var k' := Poll(k, t.pid, t.slot);
    assert k'.log[|k.log|] == Collected(me, t.pid, status);
  }

  /** An input: a table in which the caller's child has exited with all ones.  The caller gets the
      word it would get had it no such child. */
  lemma StatusMistaken(sys: Sys, log: seq<Event>)
    requires sys.current < |sys.tasks|
    ensures var parent := Process(Active, 1, 1, 0, 5, 0, 0, [], []);
      var child := Process(Exited, 2, 2, 1, 0, 0, 0xFFFF_FFFF, [], []);
      var k, alone := K(sys, [parent, child], 3, log), K(sys, [parent, NO_PROC], 3, log);
      && Poll(k, 2, 0).log == log + [Collected(1, 2, 0xFFFF_FFFF)] && Poll(alone, 2, 0).log == log + [WaitFailed(1, 2)]
      && Answer(k, 2, 0) == Answer(alone, 2, 0)
  {
  }

  /** A child whose exec failed makes wait return -1. */
  lemma FailedExecWait(b: Boot, k: K, j: nat)
    requires Reachable(b, k) && k.sys.current < |k.sys.tasks| && Current(k).ctl.InWait?
    requires j < |k.log| && k.log[j] == ExecFailed(Current(k).ctl.pid)
    ensures Current(k).ctl.slot < |k.procs|
    ensures Poll(k, Current(k).ctl.pid, Current(k).ctl.slot).log
            == k.log + [WaitFailed(k.procs[Current(k).ctl.slot].pid, Current(k).ctl.pid)]
  {
    hide Reachable; hide SysInv; hide SpacesOk; hide TextsOk; hide LinkOk; hide TableOk;
    ReachableInv(b, k);
    CurrentRecord(b, k);
    assert EventOk(k.log[j], k.procs, k.nextPid);
  }

  // ---------------------------------------------------------------- the blocked caller

  /** Every record that names task `id` has pid `pid`, now and for all ids given out so far. */
  predicate Bound(k: K, id: nat, pid: nat)
  {
    id < k.sys.nextId && forall s :: 0 <= s < |k.procs| && k.procs[s].state != Vacant && k.procs[s].taskId == id ==> k.procs[s].pid == pid
  }

  lemma BoundStep(b: Boot, k: K, a: Action, id: nat, pid: nat)
    requires Inv(b, k) && Shaped(k) && Enabled(k, a) && Bound(k, id, pid)
    ensures Bound(Step(b, k, a), id, pid)
  {
    hide Inv;
    StepRecords(b, k, a);
    var k' := Step(b, k, a);
    forall t | 0 <= t < |k'.procs| && k'.procs[t].state != Vacant && k'.procs[t].taskId == id ensures k'.procs[t].pid == pid {
      assert RecordStep(k, k', t);
    }
  }

  lemma {:induction false} BoundForever(b: Boot, k: K, acts: seq<Action>, id: nat, pid: nat)
    requires Inv(b, k) && Possible(b, k, acts) && Bound(k, id, pid)
    ensures Bound(After(b, k, acts), id, pid)
    decreases |acts|
  {
    hide Inv;
    if acts != [] {
      BoundStep(b, k, acts[0], id, pid);
      StepInv(b, k, acts[0]);
      BoundForever(b, Step(b, k, acts[0]), acts[1..], id, pid);
    }
  }

  /** The record a blocked waiter looked up: occupied, running, and its own. */
  lemma WaiterRecord(b: Boot, k: K, t: nat)
    requires Inv(b, k) && 1 <= t < |k.sys.tasks| && Live(k.sys.tasks[t]) && k.sys.tasks[t].ctl.InWait?
    ensures k.sys.tasks[t].ctl.slot < |k.procs|
    ensures var q := k.procs[k.sys.tasks[t].ctl.slot]; q.state == Active && q.taskId == k.sys.tasks[t].id
    ensures Bound(k, k.sys.tasks[t].id, k.procs[k.sys.tasks[t].ctl.slot].pid)
  {
    hide SysInv; hide HistoryOk; hide SpacesOk; hide TextsOk;
    assert HasRecord(k.procs, k.sys.tasks[t]);
    var s :| 0 <= s < |k.procs| && k.procs[s].state != Vacant && k.procs[s].taskId == k.sys.tasks[t].id;
    assert Fits(k.sys.tasks[t], k.procs[s], s, k.sys.mem.v.kdir);
  }

  /** The wait of task `t` has not returned along the run: every turn of its loop that it
      takes yields. */
  predicate Unanswered(b: Boot, k: K, acts: seq<Action>, t: nat)
    requires Possible(b, k, acts)
    decreases |acts|
  {
    acts == [] ||
    ((k.sys.current == t && acts[0] == DoPoll ==> Yields(b, k, acts[0]))
     && Unanswered(b, Step(b, k, acts[0]), acts[1..], t))
  }

  /** A task that never gets to run has had no answer. */
  lemma {:induction false} NotChosenUnanswered(b: Boot, k: K, acts: seq<Action>, t: nat)
    requires Possible(b, k, acts) && NeverChosen(b, k, acts, t)
    ensures Unanswered(b, k, acts, t)
    decreases |acts|
  {
    if acts != [] { NotChosenUnanswered(b, Step(b, k, acts[0]), acts[1..], t); }
  }

  /** The same task at the same place: only its state may have gone between runnable and
      running. */
  predicate SameTask(u: Task, u': Task) { Live(u') && u' == u.(state := u'.state) }

  /** One step of anybody leaves a waiting task waiting, if it is not its own last turn. */
  lemma WaiterStep(b: Boot, k: K, a: Action, t: nat)
    requires Inv(b, k) && Shaped(k) && Enabled(k, a) && t < |k.sys.tasks|
    requires Live(k.sys.tasks[t]) && k.sys.tasks[t].ctl.InWait?
    requires k.sys.current == t && a == DoPoll ==> Yields(b, k, a)
    ensures var k' := Step(b, k, a);
      && |k'.sys.tasks| == |k.sys.tasks| && SameTask(k.sys.tasks[t], k'.sys.tasks[t])
      && (k.sys.current != t && k'.sys.current != t ==> k'.sys.tasks[t] == k.sys.tasks[t])
  {
    hide SysInv; hide ProcsInv;
    if k.sys.current == t {
      WaiterOwnStep(b, k, a);
    } else {
      OthersRunnable(b.base, k.sys, t);
      hide Inv; hide Yields; hide Step; hide Enabled; hide Shaped;
      if Yields(b, k, a) { YieldSteps(b, k, a, t); } else { OtherSteps(b, k, a, t); }
    }
  }

  /** A waiting task itself can take turns of its loop, or be refilled by the processor. */
  lemma WaiterOwnStep(b: Boot, k: K, a: Action)
    requires Shaped(k) && Enabled(k, a) && Current(k).state == Running && Current(k).ctl.InWait?
    requires a == DoPoll ==> Yields(b, k, a)
    ensures var k' := Step(b, k, a);
      |k'.sys.tasks| == |k.sys.tasks| && SameTask(Current(k), k'.sys.tasks[k.sys.current])
  {
    hide Fill; hide Yield;
    if a == DoPoll { WaiterYields(k.sys); }
  }

  lemma OthersRunnable(base: Base, s: Sys, t: nat)
    requires SysInv(base, s) && t < |s.tasks| && t != s.current && Live(s.tasks[t])
    ensures s.tasks[t].state == Runnable
  {
  }

  /** A yield of a running task leaves it runnable, or running when nobody else is. */
  lemma WaiterYields(s: Sys)
    requires s.current < |s.tasks| && s.tasks[s.current].state == Running
    ensures var s' := Yield(s);
      |s'.tasks| == |s.tasks| && SameTask(s.tasks[s.current], s'.tasks[s.current])
  {
    ReapTasks(s, 1, s.current);
  }

  lemma {:induction false} WaiterRun(b: Boot, k: K, acts: seq<Action>, t: nat)
    requires Inv(b, k) && Possible(b, k, acts) && t < |k.sys.tasks|
    requires Live(k.sys.tasks[t]) && k.sys.tasks[t].ctl.InWait? && Unanswered(b, k, acts, t)
    ensures var k' := After(b, k, acts);
      && |k'.sys.tasks| == |k.sys.tasks| && SameTask(k.sys.tasks[t], k'.sys.tasks[t])
      && (NeverChosen(b, k, acts, t) ==> k'.sys.tasks[t] == k.sys.tasks[t])
    decreases |acts|
  {
    hide Inv;
    if acts != [] {
      var k1 := Step(b, k, acts[0]);
      WaiterStep(b, k, acts[0], t);
      StepInv(b, k, acts[0]);
      WaiterRun(b, k1, acts[1..], t);
      hide Step;
      assert NeverChosen(b, k, acts, t) ==> k.sys.current != t && NeverChosen(b, k1, acts[1..], t) && k1.sys.current != t;
    }
  }

  /** A caller blocked in wait stays blocked, across any number of steps of others and of its
      own yields, until its wait is answered: nothing ends it or makes it forget where it is,
      and the slot it remembers still holds its own record, under its own pid.  While it does
      not even run, its table entry does not change at all. */
  lemma BlockedCaller(b: Boot, k: K, acts: seq<Action>, t: nat)
    requires Reachable(b, k) && Possible(b, k, acts) && t < |k.sys.tasks|
    requires Live(k.sys.tasks[t]) && k.sys.tasks[t].ctl.InWait? && Unanswered(b, k, acts, t)
    ensures var k' := After(b, k, acts);
      var slot := k.sys.tasks[t].ctl.slot;
      && |k'.sys.tasks| == |k.sys.tasks| && SameTask(k.sys.tasks[t], k'.sys.tasks[t])
      && (NeverChosen(b, k, acts, t) ==> k'.sys.tasks[t] == k.sys.tasks[t])
      && slot < |k.procs| && slot < |k'.procs|
      && k'.procs[slot].state == Active && k'.procs[slot].taskId == k.sys.tasks[t].id
      && k'.procs[slot].pid == k.procs[slot].pid
  {
    ReachableInv(b, k);
    WaitersUser(b.base, k.sys, t);
    hide Inv;
    WaiterRun(b, k, acts, t);
    WaiterRecord(b, k, t);
    BoundForever(b, k, acts, k.sys.tasks[t].id, k.procs[k.sys.tasks[t].ctl.slot].pid);
    RunInv(b, k, acts);
    WaiterRecord(b, After(b, k, acts), t);
  }

  /** In particular while only others run: whatever they spawn, end, collect or reap, the blocked
      caller's task entry does not change, and its slot is its own. */
  lemma UntouchedCaller(b: Boot, k: K, acts: seq<Action>, t: nat)
    requires Reachable(b, k) && Possible(b, k, acts) && t < |k.sys.tasks|
    requires Live(k.sys.tasks[t]) && k.sys.tasks[t].ctl.InWait? && NeverChosen(b, k, acts, t)
    ensures var k' := After(b, k, acts);
      var slot := k.sys.tasks[t].ctl.slot;
      && t < |k'.sys.tasks| && k'.sys.tasks[t] == k.sys.tasks[t] && slot < |k.procs| && slot < |k'.procs|
      && k'.procs[slot].state == Active && k'.procs[slot].pid == k.procs[slot].pid
  {
    hide *;
    NotChosenUnanswered(b, k, acts, t);
    BlockedCaller(b, k, acts, t);
  }

  lemma WaitersUser(base: Base, s: Sys, t: nat)
    requires SysInv(base, s) && t < |s.tasks| && s.tasks[t].ctl.InWait?
    ensures t >= 1
  {
  }
}
