/** Bounded waiting: a runnable task is resumed after at most |tasks| - 1 yields. */
module Fairness {
  import opened Arith
  import opened Common
  import opened SchedSpec
  import opened SchedProofs
  import opened Machine
  import opened SpawnProofs
  import opened Theorems
  import VmSpec
  import UserPages

  lemma AroundIs(n: nat, current: nat, k: nat)
    requires current < n && k <= n
    ensures Around(n, current, k) == if current + k < n then current + k else current + k - n
  {
    if current + k < n {
      DivModIs(current + k, n, 0, current + k);
    } else {
      DivModIs(current + k, n, 1, current + k - n);
    }
  }

  /** How far slot `t` is ahead of `current`, going round the table. */
  function Distance(n: nat, current: nat, t: nat): (d: nat)
    requires current < n && t < n
    ensures t != current ==> 1 <= d
    ensures d < n
  {
    if t >= current then t - current else t + n - current
  }

  lemma DistanceReaches(n: nat, current: nat, t: nat)
    requires current < n && t < n
    ensures Around(n, current, Distance(n, current, t)) == t
  {
    AroundIs(n, current, Distance(n, current, t));
  }

  lemma DistanceFalls(n: nat, current: nat, t: nat, k: nat)
    requires current < n && t < n && 1 <= k <= Distance(n, current, t)
    ensures Distance(n, Around(n, current, k), t) == Distance(n, current, t) - k
  {
    AroundIs(n, current, k);
  }

  /** Each yield that does not choose a runnable task brings it strictly closer. */
  lemma YieldProgress(s: Sys, t: nat)
    requires s.current < |s.tasks| && t < |s.tasks| && t != s.current && s.tasks[t].state == Runnable
    ensures var s' := Yield(s);
      && |s'.tasks| == |s.tasks| && s'.current < |s.tasks|
      && s'.tasks[t] == (if s'.current == t then s.tasks[t].(state := Running) else s.tasks[t])
      && (s'.current == t || Distance(|s.tasks|, s'.current, t) < Distance(|s.tasks|, s.current, t))
  {
    var r := Reap(s, 1);
    ReapTasks(s, 1, t);
    var n := |r.tasks|;
    var d := Distance(n, r.current, t);
    var k := NextDistance(r.tasks, r.current, 1);
    DistanceReaches(n, r.current, t);
    assert r.tasks[Around(n, r.current, d)].state == Runnable;
    assert k <= d;
    DistanceFalls(n, r.current, t, k);
  }

  // ---------------------------------------------------------------- over whole runs

  /** Does this step call `sched_yield`? */
  predicate Yields(b: Boot, k: K, a: Action)
    requires Shaped(k)
  {
    match a
    case DoYield => true
    case DoExit(_) => true
    case DoExitThread => true
    case DoExec =>
      var s := FindTask(k.procs, Current(k).id, 0);
      s == |k.procs| || !PrepareExec(b.archive, k.sys.mem, k.procs[s].space, k.procs[s].pages, k.procs[s].path).3 || k.sys.current == 0 || k.procs[s].space == 0
    case DoPoll =>
      Current(k).ctl.InWait? &&
      var c := FindPid(k.procs, Current(k).ctl.pid, 0);
      c < |k.procs| && k.procs[c].parent == k.procs[Current(k).ctl.slot].pid && k.procs[c].state != Exited
    case _ => false
  }

  lemma CreateKeepsRunnable(s: Sys, ctl: Control, t: nat)
    requires s.current < |s.tasks| && t < |s.tasks| && s.tasks[t].state == Runnable
    ensures var s' := CreateThread(s, ctl).0;
      |s'.tasks| == |s.tasks| && s'.current == s.current && s'.tasks[t] == s.tasks[t]
  {
    ReapTasks(s, 1, t);
  }

  /** A step that does not yield leaves the current task current and a runnable one as it is,
      whatever it creates, ends or reaps. */
  lemma OtherSteps(b: Boot, k: K, a: Action, t: nat)
    requires Shaped(k) && Enabled(k, a) && !Yields(b, k, a)
    requires t < |k.sys.tasks| && t != k.sys.current && k.sys.tasks[t].state == Runnable
    ensures var k' := Step(b, k, a);
      |k'.sys.tasks| == |k.sys.tasks| && k'.sys.current == k.sys.current && k'.sys.tasks[t] == k.sys.tasks[t]
  {
    match a
    case DoSpawn(path) =>
      SpawnUnfold(b, k, path);
      var slot := FirstVacant(k.procs, 0);
      if slot < |k.procs| { SpawnKeepsRunnable(k, path, slot, t); }
    case DoCreateThread => CreateKeepsRunnable(k.sys, EnterKernel, t);
    case _ =>
  }

  lemma SpawnKeepsRunnable(k: K, path: seq<Byte>, slot: nat, t: nat)
    requires Shaped(k) && slot < |k.procs| && t < |k.sys.tasks| && k.sys.tasks[t].state == Runnable
    ensures var k' := SpawnIn(k, path, slot);
      |k'.sys.tasks| == |k.sys.tasks| && k'.sys.current == k.sys.current && k'.sys.tasks[t] == k.sys.tasks[t]
  {
    var (p, v, d) := VmSpec.Create(k.sys.mem.p, k.sys.mem.v);
    CreateKeepsRunnable(k.sys.(mem := k.sys.mem.(p := p, v := v)), EnterUser, t);
  }

  /** A step that yields chooses `t`, or brings it closer and leaves it as it is. */
  lemma YieldSteps(b: Boot, k: K, a: Action, t: nat)
    requires Shaped(k) && Enabled(k, a) && Yields(b, k, a)
    requires t < |k.sys.tasks| && t != k.sys.current && k.sys.tasks[t].state == Runnable
    ensures var k' := Step(b, k, a);
      && |k'.sys.tasks| == |k.sys.tasks| && k'.sys.current < |k.sys.tasks|
      && k'.sys.tasks[t] == (if k'.sys.current == t then k.sys.tasks[t].(state := Running) else k.sys.tasks[t])
      && (k'.sys.current == t ||
          Distance(|k.sys.tasks|, k'.sys.current, t) < Distance(|k.sys.tasks|, k.sys.current, t))
  {
    var s := BeforeYield(b, k, a, t);
    YieldProgress(s, t);
  }

  /** The system state from which a yielding step yields. */
  lemma BeforeYield(b: Boot, k: K, a: Action, t: nat) returns (s: Sys)
    requires Shaped(k) && Enabled(k, a) && Yields(b, k, a)
    requires t < |k.sys.tasks| && t != k.sys.current
    ensures |s.tasks| == |k.sys.tasks| && s.current == k.sys.current && s.tasks[t] == k.sys.tasks[t]
    ensures Step(b, k, a).sys == Yield(s)
  {
    match a
    case DoYield => s := k.sys;
    case DoPoll => s := k.sys;
    case DoExitThread => s := MarkZombie(k.sys);
    case DoExit(status) =>
      var i := FindTask(k.procs, Current(k).id, 0);
      if i == |k.procs| {
        s := MarkZombie(k.sys);
      } else {
        s := MarkZombie(k.sys.(mem := UserPages.FreePages(k.sys.mem, k.procs[i].space, k.procs[i].pages)));
      }
    case DoExec =>
      var i := FindTask(k.procs, Current(k).id, 0);
      if i == |k.procs| {
        s := MarkZombie(k.sys);
      } else {
        var q := k.procs[i];
        var (m, pages, entry, ok) := PrepareExec(b.archive, k.sys.mem, q.space, q.pages, q.path);
        var m' := if ok then UserPages.FreePages(m, q.space, pages) else m;
        var (p, v) := VmSpec.Destroy(m'.p, m'.v, q.space);
        s := MarkZombie(k.sys.(mem := m'.(p := p, v := v)));
      }
  }

  /** Number of yields along a run. */
  function YieldCount(b: Boot, k: K, acts: seq<Action>): nat
    requires Possible(b, k, acts)
    decreases |acts|
  {
    if acts == [] then 0
    else (if Yields(b, k, acts[0]) then 1 else 0) + YieldCount(b, Step(b, k, acts[0]), acts[1..])
  }

  /** Task `t` is never chosen along the run. */
  predicate NeverChosen(b: Boot, k: K, acts: seq<Action>, t: nat)
    requires Possible(b, k, acts)
    decreases |acts|
  {
    k.sys.current != t && (acts == [] || NeverChosen(b, Step(b, k, acts[0]), acts[1..], t))
  }

  /** Along any run in which a runnable task is not chosen, the number of yields stays below
      its distance from the current task. */
  lemma {:induction false} WaitBelowDistance(b: Boot, k: K, acts: seq<Action>, t: nat)
    requires Possible(b, k, acts) && k.sys.current < |k.sys.tasks|
    requires t < |k.sys.tasks| && k.sys.tasks[t].state == Runnable && NeverChosen(b, k, acts, t)
    ensures YieldCount(b, k, acts) < Distance(|k.sys.tasks|, k.sys.current, t)
    decreases |acts|
  {
    if acts != [] {
      var k' := Step(b, k, acts[0]);
      if Yields(b, k, acts[0]) {
        YieldSteps(b, k, acts[0], t);
      } else {
        OtherSteps(b, k, acts[0], t);
      }
      WaitBelowDistance(b, k', acts[1..], t);
    }
  }

  /** Bounded waiting: with n task slots, a runnable task is chosen at the latest by the
      (n-1)th yield, whatever is created, exits or is reaped in between. */
  lemma BoundedWaiting(b: Boot, k: K, acts: seq<Action>, t: nat)
    requires Possible(b, k, acts) && k.sys.current < |k.sys.tasks|
    requires t < |k.sys.tasks| && k.sys.tasks[t].state == Runnable
    requires YieldCount(b, k, acts) >= |k.sys.tasks| - 1
    ensures !NeverChosen(b, k, acts, t)
  {
    if NeverChosen(b, k, acts, t) {
      WaitBelowDistance(b, k, acts, t);
    }
  }
}
