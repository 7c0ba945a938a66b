/** What each step does, in terms of the tables before and after: the records, the history, and the
    tasks, with the arguments of the call in their places. */
module Effects {
  import opened Common
  import opened Archive
  import opened PmmSpec
  import opened VmSpec
  import opened UserPages
  import opened SchedSpec
  import opened SchedProofs
  import opened Machine
  import opened ProcInv
  import opened StepProofs
  import opened StartProofs
  import opened SpawnProofs
  import opened RunProofs
  import opened Theorems
  import opened Fairness
  import opened Delivery
  import opened Answered
  import opened Success

  // ---------------------------------------------------------------- one step further

  lemma {:induction false} OneMore(b: Boot, k: K, acts: seq<Action>, a: Action)
    requires Possible(b, k, acts) && Shaped(After(b, k, acts)) && Enabled(After(b, k, acts), a)
    ensures Possible(b, k, acts + [a]) && After(b, k, acts + [a]) == Step(b, After(b, k, acts), a)
    decreases |acts|
  {
    hide Step; hide Shaped; hide Enabled;
    if acts == [] {
      assert [] + [a] == [a] && [a][1..] == [];
    } else {
      OneMore(b, Step(b, k, acts[0]), acts[1..], a);
      assert (acts + [a])[1..] == acts[1..] + [a];
    }
  }

  lemma ReachableStep(b: Boot, k: K, a: Action)
    requires Reachable(b, k) && Shaped(k) && Enabled(k, a)
    ensures Reachable(b, Step(b, k, a))
  {
    hide Step; hide Shaped; hide Enabled; hide BootState;
    var k0, acts :| BootState(b, k0) && Possible(b, k0, acts) && k == After(b, k0, acts);
    OneMore(b, k0, acts, a);
  }

  // ---------------------------------------------------------------- yield

  /** A yield empties exactly the slots of dead tasks other than the caller's, whoever is chosen; of
      every other task only the state can change: the chosen one runs, and the caller, if it ran,
      is runnable again. */
  lemma YieldTasks(s: Sys, j: nat)
    requires s.current < |s.tasks| && j < |s.tasks|
    ensures var s' := Yield(s);
      && |s'.tasks| == |s.tasks| && s'.current < |s.tasks| && s'.nextId == s.nextId
      && (DeadAt(s, j) ==> s'.tasks[j] == NO_TASK)
      && (!DeadAt(s, j) ==> s'.tasks[j] == s.tasks[j].(state := s'.tasks[j].state))
      && (s'.tasks[j].state == Zombie <==> s.tasks[j].state == Zombie && !DeadAt(s, j))
      && (j != s.current && j != s'.current && !DeadAt(s, j) ==> s'.tasks[j] == s.tasks[j])
      && (s'.current != s.current && j == s'.current ==> s.tasks[j].state == Runnable && s'.tasks[j].state == Running)
      && (s'.current != s.current && j == s.current && s.tasks[j].state == Running ==> s'.tasks[j].state == Runnable)
  {
    ReapTasks(s, 1, j);
    ReapTasks(s, 1, s.current);
    var r := Reap(s, 1);
    var k := NextDistance(r.tasks, r.current, 1);
    if k <= |r.tasks| {
      ReapTasks(s, 1, Around(|r.tasks|, r.current, k));
    }
    hide Reap; hide Load;
  }

  /** Over runs: a task that is dead and not current is gone after the next step that yields. */
  lemma DeadGone(b: Boot, k: K, a: Action, j: nat)
    requires Shaped(k) && Enabled(k, a) && Yields(b, k, a) && DeadAt(k.sys, j)
    ensures j < |Step(b, k, a).sys.tasks| && Step(b, k, a).sys.tasks[j] == NO_TASK
  {
    var s := BeforeYield(b, k, a, j);
    hide Step; hide Yields; hide Enabled; hide Yield;
    YieldTasks(s, j);
  }

  /** Once all records are gone, one yield of task 0 gives every frame back but those of boot, the
      heap's and the kernel's late tables. */
  lemma OneYieldFrees(b: Boot, k: K)
    requires Reachable(b, k) && k.sys.current == 0 < |k.sys.tasks|
    requires forall s :: 0 <= s < |k.procs| ==> k.procs[s].state == Vacant
    ensures Shaped(k) && Enabled(k, DoYield)
    ensures var k' := Step(b, k, DoYield);
      b.base.kdir in k'.sys.mem.v.spaces && k'.sys.mem.p.used == BootFrames(b) + k'.sys.h.pages + LateTables(b, k')
  {
    hide *;
    ReachableInv(b, k);
    InvShaped(b, k);
    ZeroYields(b, k);
    ReachableStep(b, k, DoYield);
    NoLeak(b, Step(b, k, DoYield));
  }

  lemma ZeroYields(b: Boot, k: K)
    requires Inv(b, k) && Shaped(k) && k.sys.current == 0
    requires forall s :: 0 <= s < |k.procs| ==> k.procs[s].state == Vacant
    ensures Enabled(k, DoYield) && Quiescent(Step(b, k, DoYield))
  {
    hide SysInv; hide ProcsInv;
    TaskZero(b.base, k.sys);
    var k' := Step(b, k, DoYield);
    assert k'.sys == Yield(k.sys) && k'.procs == k.procs;
    hide Step; hide Yield;
    forall i | 0 <= i < |k'.sys.tasks| ensures k'.sys.tasks[i].state != Zombie {
      YieldTasks(k.sys, i);
    }
  }

  lemma TaskZero(base: Base, s: Sys)
    requires SysInv(base, s)
    ensures s.tasks != [] && s.tasks[0].ctl == InKernel && Live(s.tasks[0])
  {
  }

  // ---------------------------------------------------------------- exit

  /** The record of the current task. */
  predicate Own(k: K, s: nat)
  {
    && k.sys.current < |k.sys.tasks| && s < |k.procs|
    && k.procs[s].state != Vacant && k.procs[s].taskId == Current(k).id
  }

  /** What the end of process `pid` leaves of another record. */
  function Survivor(q: Process, pid: nat): Process
  {
    if q.state == Vacant || q.parent != pid then q
    else if q.state == Exited then NO_PROC
    else q.(parent := 0)
  }

  /** The caller is dead and somebody else runs. */
  predicate Left(k: K, k': K)
    requires k.sys.current < |k.sys.tasks|
  {
    && |k'.sys.tasks| == |k.sys.tasks| && k'.sys.current != k.sys.current
    && k'.sys.tasks[k.sys.current].state == Zombie && k'.sys.tasks[k.sys.current].id == Current(k).id
  }

  /** `sys_exit` with the status it was given: the history says so, the record keeps it for a parent
      and goes without one, exited children go, other children lose their parent, and the task
      is dead. */
  lemma ExitEffect(b: Boot, k: K, status: Word32, s: nat)
    requires Reachable(b, k) && Own(k, s) && Current(k).ctl == InUser
    ensures Shaped(k) && Enabled(k, DoExit(status))
    ensures var k', q := Step(b, k, DoExit(status)), k.procs[s];
      && k'.log == k.log + [DidExit(q.pid, status)] && k'.nextPid == k.nextPid && |k'.procs| == |k.procs|
      && k'.procs[s] == (if q.parent == 0 then NO_PROC
                         else q.(state := Exited, status := status, pages := [], space := 0))
      && (forall t :: 0 <= t < |k.procs| && t != s ==> k'.procs[t] == Survivor(k.procs[t], q.pid))
      && Left(k, k')
  {
    hide Inv; hide Reachable; hide Step; hide TableOk; hide Retire; hide Shaped; hide FindTask; hide Trimmed; hide NoChildren;
    hide OthersTrimmed; hide Survivor; hide Ended;
    ReachableInv(b, k);
    InvShaped(b, k);
    OwnFound(b, k, s);
    InvTable(b, k);
    StepInv(b, k, DoExit(status));
    ExitUnfold(b, k, status, s);
    RetireShape(k.procs, k.nextPid, k.sys.nextId, s, status);
    Survivors(k.procs, Retire(k.procs, s, status), s);
    RunnerRuns(b, Step(b, k, DoExit(status)));
  }

  lemma Survivors(procs: seq<Process>, r: seq<Process>, s: nat)
    requires s < |procs| && OthersTrimmed(procs, r, s) && NoChildren(r, s, procs[s].pid)
    ensures |r| == |procs| && forall t :: 0 <= t < |procs| && t != s ==> r[t] == Survivor(procs[t], procs[s].pid)
  {
    forall t | 0 <= t < |procs| && t != s ensures r[t] == Survivor(procs[t], procs[s].pid) {
      assert Trimmed(procs[t], r[t], procs[s].pid);
    }
  }

  lemma RunnerRuns(b: Boot, k: K)
    requires Inv(b, k)
    ensures k.sys.current < |k.sys.tasks| && Current(k).state == Running
  {
    hide ProcsInv;
  }

  lemma OwnFound(b: Boot, k: K, s: nat)
    requires Inv(b, k) && Own(k, s)
    ensures s == FindTask(k.procs, Current(k).id, 0)
    ensures Current(k).ctl == InUser || Current(k).ctl.InWait? ==> k.procs[s].state == Active && k.procs[s].space == Current(k).space
    ensures Current(k).ctl.InWait? ==> Current(k).ctl.slot == s
    ensures Current(k).ctl == EnterUser ==> k.procs[s].state == Created
  {
    InvTable(b, k);
    UniqueRecord(k.procs, k.nextPid, k.sys.nextId, s);
    CurrentTask(b, k);
    hide SysInv; hide SpacesOk; hide TextsOk; hide LogOk; hide HistoryOk; hide TableOk;
    assert Fits(Current(k), k.procs[s], s, k.sys.mem.v.kdir);
  }

  lemma ExitUnfold(b: Boot, k: K, status: Word32, s: nat)
    requires Shaped(k) && Enabled(k, DoExit(status)) && s == FindTask(k.procs, Current(k).id, 0) < |k.procs|
    ensures var k' := Step(b, k, DoExit(status));
      && k'.procs == Retire(k.procs, s, status) && k'.log == k.log + [DidExit(k.procs[s].pid, status)]
      && k'.nextPid == k.nextPid
      && |k'.sys.tasks| == |k.sys.tasks| && k'.sys.tasks[k.sys.current].state == Zombie
      && k'.sys.tasks[k.sys.current].id == Current(k).id
  {
    hide FreePages; hide Retire; hide FindTask;
    var q := k.procs[s];
    var z := MarkZombie(k.sys.(mem := FreePages(k.sys.mem, q.space, q.pages)));
    assert Step(b, k, DoExit(status)).sys == Yield(z);
    YieldTasks(z, z.current);
    hide Yield;
  }

  /** The status given to exit is the one the waiting parent gets, within one round of yields. */
  lemma ExitDelivered(b: Boot, k: K, status: Word32, s: nat, t: nat, acts: seq<Action>) returns (n: nat)
    requires Reachable(b, k) && Own(k, s) && Current(k).ctl == InUser && Shaped(k) && Enabled(k, DoExit(status))
    requires t < |k.sys.tasks| && Live(k.sys.tasks[t]) && k.sys.tasks[t].ctl.InWait?
    requires k.sys.tasks[t].ctl.pid == k.procs[s].pid && k.sys.tasks[t].ctl.slot < |k.procs|
    requires k.procs[s].parent == k.procs[k.sys.tasks[t].ctl.slot].pid
    requires var k1 := Step(b, k, DoExit(status));
      Possible(b, k1, acts) && YieldCount(b, k1, acts) >= |k.sys.tasks| - 1
    ensures var k1 := Step(b, k, DoExit(status));
      && n <= |acts| && Possible(b, k1, acts[..n]) && YieldCount(b, k1, acts[..n]) <= |k.sys.tasks| - 1
      && var k2, ctl := After(b, k1, acts[..n]), k.sys.tasks[t].ctl;
      && k2.sys.current == t && ctl.slot < |k2.procs| && Answer(k2, ctl.pid, ctl.slot) == Some(status)
  {
    ExitDone(b, k, status, s, t);
    ReachableStep(b, k, DoExit(status));
    hide *;
    n := WaitAnswered(b, Step(b, k, DoExit(status)), acts, t, s);
  }

  lemma ExitDone(b: Boot, k: K, status: Word32, s: nat, t: nat)
    requires Reachable(b, k) && Own(k, s) && Current(k).ctl == InUser && Shaped(k) && Enabled(k, DoExit(status))
    requires t < |k.sys.tasks| && Live(k.sys.tasks[t]) && k.sys.tasks[t].ctl.InWait?
    requires k.sys.tasks[t].ctl.pid == k.procs[s].pid && k.sys.tasks[t].ctl.slot < |k.procs|
    requires k.procs[s].parent == k.procs[k.sys.tasks[t].ctl.slot].pid
    ensures var k1 := Step(b, k, DoExit(status));
      && ChildDone(k1, t, s) && k1.sys.tasks[t].ctl == k.sys.tasks[t].ctl && k1.procs[s].status == status
      && |k1.sys.tasks| == |k.sys.tasks| && k1.sys.current < |k1.sys.tasks|
  {
    ReachableInv(b, k);
    ExitEffect(b, k, status, s);
    var slot := k.sys.tasks[t].ctl.slot;
    WaitersUser(b.base, k.sys, t);
    WaiterRecord(b, k, t);
    InvTable(b, k);
    Parents(k.procs, k.nextPid, k.sys.nextId, slot);
    DistinctIds(b.base, k.sys, t);
    WaiterStep(b, k, DoExit(status), t);
    StepRecords(b, k, DoExit(status));
    StepInv(b, k, DoExit(status));
    RunnerRuns(b, Step(b, k, DoExit(status)));
    hide Inv; hide Step; hide Reachable; hide TableOk;
    assert RecordStep(k, Step(b, k, DoExit(status)), slot);
  }

  // ---------------------------------------------------------------- spawn

  /** The pid of the calling process, 0 for a caller that is none. */
  ghost predicate CallerIs(k: K, pid: nat)
  {
    && (forall s: nat :: Own(k, s) ==> pid == k.procs[s].pid)
    && ((forall s: nat :: !Own(k, s)) ==> pid == 0)
  }

  /** `user_spawn` that returns a pid: one vacant record now belongs to a created process with that
      pid, the path given, the caller as parent and a fresh task that will load it; no other
      record changes, no other record has that pid, and the history gains exactly the spawn.  A
      spawn that fails changes no record and leaves no trace in the history. */
  lemma SpawnEffect(b: Boot, k: K, path: Bytes) returns (s: nat)
    requires Reachable(b, k) && k.sys.current < |k.sys.tasks|
    ensures k.sys.mem.v.kdir in k.sys.mem.v.spaces
    ensures var (k', r) := Spawn(b, k, path);
      && (r == FAILED ==> k'.procs == k.procs && k'.log == k.log)
      && (r != FAILED ==>
            && r == k.nextPid && k'.nextPid == k.nextPid + 1 && s < |k.procs| == |k'.procs| && k.procs[s].state == Vacant
            && (forall t :: 0 <= t < |k.procs| && t != s ==> k'.procs[t] == k.procs[t])
            && (forall t :: 0 <= t < |k.procs| && t != s && k.procs[t].state != Vacant ==> k.procs[t].pid != r)
            && var q := k'.procs[s];
            && q.state == Created && q.pid == r && q.path == path && q.pages == [] && q.taskId == k.sys.nextId
            && CallerIs(k, q.parent) && k'.log == k.log + [Spawned(q.parent, q.pid)]
            && q.space !in k.sys.mem.v.spaces && q.space in k'.sys.mem.v.spaces
            && exists i :: 1 <= i < |k'.sys.tasks| && k'.sys.tasks[i].id == q.taskId
                 && k'.sys.tasks[i].state == Runnable && k'.sys.tasks[i].ctl == EnterUser)
  {
    hide Reachable; hide Inv; hide SysInv; hide TableOk;
    ReachableInv(b, k);
    SpawnReady(b, k);
    InvTable(b, k);
    s := FirstVacant(k.procs, 0);
    FreshPid(k.procs, k.nextPid, k.sys.nextId);
    CallerFound(b, k);
    CreateSys(b.base, k.sys);
    var c := Create(k.sys.mem.p, k.sys.mem.v);
    var s1 := k.sys.(mem := k.sys.mem.(p := c.0, v := c.1));
    SpawnFields(b, k, path);
    if c.2 != 0 {
      TasksInSpaces(b.base, k.sys);
      ThreadMade(b.base, s1, c.2);
    }
    hide Spawn; hide Create; hide CreateThread; hide FindTask; hide FirstVacant; hide Own;
  }

  /** The fields of the new record and of the history, one by one. */
  lemma SpawnFields(b: Boot, k: K, path: Bytes)
    requires k.sys.current < |k.sys.tasks| && k.sys.mem.v.kdir in k.sys.mem.v.spaces
    ensures var (k', r) := Spawn(b, k, path);
      var c := Create(k.sys.mem.p, k.sys.mem.v);
      var th := CreateThread(k.sys.(mem := k.sys.mem.(p := c.0, v := c.1)), EnterUser);
      var me := FindTask(k.procs, Current(k).id, 0);
      var s := FirstVacant(k.procs, 0);
      && (r == FAILED ==> k'.procs == k.procs && k'.log == k.log)
      && (r != FAILED ==>
            && s < |k.procs| && c.2 != 0 && th.1.Some? && r == k.nextPid && k'.nextPid == k.nextPid + 1 && k'.sys == th.0
            && k'.procs == k.procs[s := k'.procs[s]] && k'.log == k.log + [Spawned(k'.procs[s].parent, k'.procs[s].pid)]
            && var q := k'.procs[s];
            && q.state == Created && q.pid == r && q.path == path && q.pages == [] && q.taskId == th.1.value
            && q.space == c.2 && q.parent == if me < |k.procs| then k.procs[me].pid else 0)
  {
    hide Create; hide CreateThread; hide FindTask; hide FirstVacant; hide Find; hide Destroy;
  }

  lemma FreshPid(procs: seq<Process>, nextPid: nat, nextId: nat)
    requires TableOk(procs, nextPid, nextId)
    ensures forall t :: 0 <= t < |procs| && procs[t].state != Vacant ==> procs[t].pid != nextPid
  {
    hide HasActive;
    forall t | 0 <= t < |procs| && procs[t].state != Vacant ensures procs[t].pid != nextPid {
      assert RecordOk(procs[t], nextPid, nextId);
    }
  }

  lemma CallerFound(b: Boot, k: K)
    requires Inv(b, k) && k.sys.current < |k.sys.tasks|
    ensures var me := FindTask(k.procs, Current(k).id, 0);
      CallerIs(k, if me < |k.procs| then k.procs[me].pid else 0)
  {
    hide Inv; hide FindTask;
    var me := FindTask(k.procs, Current(k).id, 0);
    forall s: nat | Own(k, s) ensures me == s { OwnFound(b, k, s); }
    assert me < |k.procs| ==> Own(k, me);
  }

  lemma TasksInSpaces(base: Base, s: Sys)
    requires SysInv(base, s)
    ensures forall i :: 0 <= i < |s.tasks| && s.tasks[i].state != Unused ==> s.tasks[i].space in s.mem.v.spaces
  {
  }

  /** A thread made for a fresh space leaves that space alone. */
  lemma ThreadMade(base: Base, s1: Sys, d: nat)
    requires SysInv(base, s1) && d in s1.mem.v.spaces && d != s1.mem.v.kdir
    requires forall i :: 0 <= i < |s1.tasks| && s1.tasks[i].state != Unused ==> s1.tasks[i].space != d
    ensures 1 <= |s1.tasks|
    ensures var (s2, id) := CreateThread(s1, EnterUser);
      id.Some? ==>
        && id.value == s1.nextId && d in s2.mem.v.spaces
        && exists i :: 1 <= i < |s2.tasks| && s2.tasks[i].id == id.value && s2.tasks[i].state == Runnable && s2.tasks[i].ctl == EnterUser
  {
    hide SysInv;
    TasksThere(base, s1);
    CreateThreadKeeps(base, s1, EnterUser);
    hide CreateThread; hide Reap;
    var r := Reap(s1, 1);
    assert SpaceQuiet(s1.mem.v, r.mem.v, s1.tasks, r.tasks, d);
  }

  lemma {:induction false} ReachableRun(b: Boot, k: K, acts: seq<Action>)
    requires Reachable(b, k) && Possible(b, k, acts)
    ensures Reachable(b, After(b, k, acts))
    decreases |acts|
  {
    hide Reachable; hide Step; hide Shaped; hide Enabled;
    if acts != [] {
      ReachableStep(b, k, acts[0]);
      ReachableRun(b, Step(b, k, acts[0]), acts[1..]);
    }
  }

  /** Every record with this pid, now and later, has this path. */
  predicate PathBound(k: K, pid: nat, path: Bytes)
  {
    pid < k.nextPid && forall s :: 0 <= s < |k.procs| && k.procs[s].state != Vacant && k.procs[s].pid == pid ==> k.procs[s].path == path
  }

  lemma PathStep(b: Boot, k: K, a: Action, pid: nat, path: Bytes)
    requires Inv(b, k) && Shaped(k) && Enabled(k, a) && PathBound(k, pid, path)
    ensures PathBound(Step(b, k, a), pid, path)
  {
    hide Inv;
    StepRecords(b, k, a);
    var k' := Step(b, k, a);
    hide Step;
    forall t | 0 <= t < |k'.procs| && k'.procs[t].state != Vacant && k'.procs[t].pid == pid ensures k'.procs[t].path == path {
      assert RecordStep(k, k', t);
    }
  }

  lemma {:induction false} PathForever(b: Boot, k: K, acts: seq<Action>, pid: nat, path: Bytes)
    requires Inv(b, k) && Possible(b, k, acts) && PathBound(k, pid, path)
    ensures PathBound(After(b, k, acts), pid, path)
    decreases |acts|
  {
    hide Inv; hide Step; hide Shaped; hide Enabled; hide PathBound;
    if acts != [] {
      PathStep(b, k, acts[0], pid, path);
      StepInv(b, k, acts[0]);
      PathForever(b, Step(b, k, acts[0]), acts[1..], pid, path);
    }
  }

  /** Whenever a spawned process runs, it runs the program under the path given to spawn. */
  lemma SpawnedRuns(b: Boot, k: K, path: Bytes, acts: seq<Action>, t: nat)
    requires Reachable(b, k) && Shaped(k) && Enabled(k, DoSpawn(path)) && Spawn(b, k, path).1 != FAILED
    requires Possible(b, Step(b, k, DoSpawn(path)), acts)
    requires var k2 := After(b, Step(b, k, DoSpawn(path)), acts);
      t < |k2.procs| && k2.procs[t].state == Active && k2.procs[t].pid == Spawn(b, k, path).1
    ensures var k2 := After(b, Step(b, k, DoSpawn(path)), acts);
      && k2.sys.mem.v.kdir in k2.sys.mem.v.spaces && Program(b.archive, path).Some?
      && var (code, entry) := Program(b.archive, path).value;
      && var q, v := k2.procs[t], k2.sys.mem.v;
      && Lookup(v, q.space, CODE_VPN).Some? && var f := Lookup(v, q.space, CODE_VPN).value.frame;
      && f in k2.sys.mem.data && k2.sys.mem.data[f] == code + Zeros(PAGE_SIZE - |code|)
      && q.entry == CODE_VPN * 4096 + entry
  {
    hide *;
    ShapedIs(k);
    StepIs(b, k, DoSpawn(path));
    var k1 := Step(b, k, DoSpawn(path));
    SpawnBinds(b, k, path);
    ReachableStep(b, k, DoSpawn(path));
    ReachableInv(b, k1);
    PathForever(b, k1, acts, Spawn(b, k, path).1, path);
    ReachableRun(b, k1, acts);
    BoundPath(After(b, k1, acts), t, path);
    ProgramLoaded(b, After(b, k1, acts), t);
  }

  lemma ShapedIs(k: K)
    requires Shaped(k)
    ensures k.sys.current < |k.sys.tasks| && k.sys.mem.v.kdir in k.sys.mem.v.spaces
  {
  }

  lemma SpawnBinds(b: Boot, k: K, path: Bytes)
    requires Reachable(b, k) && Shaped(k) && Spawn(b, k, path).1 != FAILED
    ensures Spawn(b, k, path).1 >= 0 && PathBound(Spawn(b, k, path).0, Spawn(b, k, path).1, path)
  {
    hide Reachable;
    var s := SpawnEffect(b, k, path);
    hide Spawn;
  }

  lemma BoundPath(k: K, t: nat, path: Bytes)
    requires t < |k.procs| && k.procs[t].state != Vacant && PathBound(k, k.procs[t].pid, path)
    ensures k.procs[t].path == path
  {
  }

  // ---------------------------------------------------------------- wait

  /** `user_wait` on entry: the caller is in the loop, with the pid it was given and the slot of its
      own record, and nothing else has changed. */
  lemma WaitEffect(b: Boot, k: K, pid: nat, s: nat)
    requires Reachable(b, k) && Own(k, s) && Current(k).ctl == InUser
    ensures Shaped(k) && Enabled(k, DoWait(pid))
    ensures var k' := Step(b, k, DoWait(pid));
      && k' == k.(sys := k.sys.(tasks := k'.sys.tasks)) && |k'.sys.tasks| == |k.sys.tasks|
      && (forall j :: 0 <= j < |k.sys.tasks| && j != k.sys.current ==> k'.sys.tasks[j] == k.sys.tasks[j])
      && Current(k') == Current(k).(ctl := InWait(pid, s))
  {
    hide Inv; hide Reachable; hide FindTask; hide Step; hide Shaped;
    ReachableInv(b, k);
    InvShaped(b, k);
    OwnFound(b, k, s);
    WaitUnfold(b, k, pid);
  }

  lemma WaitUnfold(b: Boot, k: K, pid: nat)
    requires Shaped(k) && Enabled(k, DoWait(pid)) && FindTask(k.procs, Current(k).id, 0) < |k.procs|
    ensures var k' := Step(b, k, DoWait(pid));
      && k' == k.(sys := k.sys.(tasks := k'.sys.tasks)) && |k'.sys.tasks| == |k.sys.tasks|
      && (forall j :: 0 <= j < |k.sys.tasks| && j != k.sys.current ==> k'.sys.tasks[j] == k.sys.tasks[j])
      && Current(k') == Current(k).(ctl := InWait(pid, FindTask(k.procs, Current(k).id, 0)))
  {
    hide FindTask;
  }

  /** The record in slot `c` is a child of `me` with this pid. */
  predicate ChildOf(k: K, c: nat, me: nat, pid: nat)
  {
    c < |k.procs| && k.procs[c].state != Vacant && k.procs[c].pid == pid && k.procs[c].parent == me
  }

  /** Nothing but the place of the current task has changed. */
  predicate BackInUser(k: K, k': K)
    requires k.sys.current < |k.sys.tasks|
  {
    && k'.sys == k.sys.(tasks := k'.sys.tasks) && |k'.sys.tasks| == |k.sys.tasks|
    && (forall j :: 0 <= j < |k.sys.tasks| && j != k.sys.current ==> k'.sys.tasks[j] == k.sys.tasks[j])
    && Current(k') == Current(k).(ctl := InUser)
  }

  /** One turn of the loop, by the record of the pid waited for.  No such child: the error word, and
      the caller is back in user mode.  An exited child: its status, its record is gone, and the
      caller is back in user mode.  A child still there: no answer, and a yield. */
  lemma PollEffect(b: Boot, k: K, c: nat)
    requires Reachable(b, k) && k.sys.current < |k.sys.tasks| && Current(k).ctl.InWait?
    ensures Shaped(k) && Enabled(k, DoPoll) && Own(k, Current(k).ctl.slot)
    ensures var k', ctl := Step(b, k, DoPoll), Current(k).ctl;
      var me := k.procs[ctl.slot].pid;
      && k'.nextPid == k.nextPid
      && ((forall i: nat :: !ChildOf(k, i, me, ctl.pid)) ==>
            && Answer(k, ctl.pid, ctl.slot) == Some(0xFFFF_FFFF) && BackInUser(k, k')
            && k'.procs == k.procs && k'.log == k.log + [WaitFailed(me, ctl.pid)])
      && (ChildOf(k, c, me, ctl.pid) && k.procs[c].state == Exited ==>
            && Answer(k, ctl.pid, ctl.slot) == Some(k.procs[c].status) && BackInUser(k, k')
            && k'.procs == k.procs[c := NO_PROC] && k'.log == k.log + [Collected(me, ctl.pid, k.procs[c].status)])
      && (ChildOf(k, c, me, ctl.pid) && k.procs[c].state != Exited ==>
            && Answer(k, ctl.pid, ctl.slot) == None && k'.procs == k.procs && k'.log == k.log
            && k'.sys == Yield(k.sys))
  {
    hide Inv; hide Reachable; hide Yield; hide TableOk; hide Step; hide FindPid; hide FindTask; hide Answer; hide BackInUser;
    hide Shaped; hide ChildOf;
    ReachableInv(b, k);
    InvShaped(b, k);
    InvTable(b, k);
    WaiterOwns(b, k);
    var ctl := Current(k).ctl;
    ChildFound(k, ctl.pid, k.procs[ctl.slot].pid, c);
    PollUnfold(b, k);
  }

  /** Looking the pid up finds the child, if there is one. */
  lemma ChildFound(k: K, pid: nat, me: nat, c: nat)
    requires TableOk(k.procs, k.nextPid, k.sys.nextId)
    ensures var f := FindPid(k.procs, pid, 0);
      && (ChildOf(k, c, me, pid) ==> f == c && c < |k.procs| && k.procs[f].parent == me)
      && ((forall i: nat :: !ChildOf(k, i, me, pid)) ==> f == |k.procs| || k.procs[f].parent != me)
  {
    hide TableOk;
    if ChildOf(k, c, me, pid) {
      UniqueRecord(k.procs, k.nextPid, k.sys.nextId, c);
    }
    var f := FindPid(k.procs, pid, 0);
    assert f < |k.procs| && k.procs[f].parent == me ==> ChildOf(k, f, me, pid);
  }

  lemma WaiterOwns(b: Boot, k: K)
    requires Inv(b, k) && k.sys.current < |k.sys.tasks| && Current(k).ctl.InWait?
    ensures Own(k, Current(k).ctl.slot)
  {
    hide Inv;
    CurrentRecord(b, k);
  }

  lemma PollUnfold(b: Boot, k: K)
    requires Shaped(k) && Enabled(k, DoPoll)
    ensures var k', ctl := Step(b, k, DoPoll), Current(k).ctl;
      var me := k.procs[ctl.slot].pid;
      var f := FindPid(k.procs, ctl.pid, 0);
      && k'.nextPid == k.nextPid
      && (if f == |k.procs| || k.procs[f].parent != me then
            && BackInUser(k, k') && k'.procs == k.procs && k'.log == k.log + [WaitFailed(me, ctl.pid)]
            && Answer(k, ctl.pid, ctl.slot) == Some(0xFFFF_FFFF)
          else if k.procs[f].state == Exited then
            && BackInUser(k, k') && k'.procs == k.procs[f := NO_PROC]
            && k'.log == k.log + [Collected(me, ctl.pid, k.procs[f].status)]
            && Answer(k, ctl.pid, ctl.slot) == Some(k.procs[f].status)
          else
            && k'.procs == k.procs && k'.log == k.log && k'.sys == Yield(k.sys) && Answer(k, ctl.pid, ctl.slot) == None)
  {
    hide Yield; hide FindPid;
  }

  /** The first turn after `wait(pid)` answers for that pid. */
  lemma WaitThenPoll(b: Boot, k: K, pid: nat, s: nat, c: nat)
    requires Reachable(b, k) && Own(k, s) && Current(k).ctl == InUser && Shaped(k) && Enabled(k, DoWait(pid))
    ensures var k1 := Step(b, k, DoWait(pid));
      && Shaped(k1) && Enabled(k1, DoPoll)
      && ((forall i: nat :: !ChildOf(k, i, k.procs[s].pid, pid)) ==>
            && Answer(k1, pid, s) == Some(0xFFFF_FFFF) && BackInUser(k1, Step(b, k1, DoPoll))
            && Step(b, k1, DoPoll).procs == k.procs)
      && (ChildOf(k, c, k.procs[s].pid, pid) && k.procs[c].state == Exited ==>
            && Answer(k1, pid, s) == Some(k.procs[c].status) && BackInUser(k1, Step(b, k1, DoPoll))
            && Step(b, k1, DoPoll).procs == k.procs[c := NO_PROC])
      && (ChildOf(k, c, k.procs[s].pid, pid) && k.procs[c].state != Exited ==>
            Answer(k1, pid, s) == None && Step(b, k1, DoPoll).sys == Yield(k1.sys))
  {
    WaitEffect(b, k, pid, s);
    ReachableStep(b, k, DoWait(pid));
    hide Reachable; hide Step; hide Yield; hide Answer; hide Shaped; hide Enabled; hide BackInUser; hide Own;
    var k1 := Step(b, k, DoWait(pid));
    PollEffect(b, k1, c);
    assert forall i: nat :: ChildOf(k1, i, k.procs[s].pid, pid) <==> ChildOf(k, i, k.procs[s].pid, pid);
  }

  // ---------------------------------------------------------------- exec

  /** `user_exec_task`: either the caller is in user mode in the record's space and only its own
      record has changed, from created to running; or only its record is gone, the history says
      that exec failed for its pid, and the task is dead. */
  lemma ExecEffect(b: Boot, k: K, s: nat)
    requires Reachable(b, k) && Own(k, s) && Current(k).ctl == EnterUser
    ensures Shaped(k) && Enabled(k, DoExec)
    ensures var k', q := Step(b, k, DoExec), k.procs[s];
      && |k'.procs| == |k.procs| && k'.nextPid == k.nextPid
      && (forall t :: 0 <= t < |k.procs| && t != s ==> k'.procs[t] == k.procs[t])
      && (k'.procs[s].state == Active ==>
            && k'.procs[s] == q.(state := Active, pages := k'.procs[s].pages, entry := k'.procs[s].entry)
            && k'.log == k.log && k'.sys.current == k.sys.current && k'.sys.current < |k'.sys.tasks|
            && Current(k') == Current(k).(space := q.space, ctl := InUser) && k'.sys.mem.v.cr3 == q.space)
      && (k'.procs[s].state != Active ==>
            k'.procs[s] == NO_PROC && k'.log == k.log + [ExecFailed(q.pid)] && Left(k, k'))
  {
    hide Inv; hide Reachable; hide Step; hide Shaped; hide FindTask;
    ReachableInv(b, k);
    InvShaped(b, k);
    OwnFound(b, k, s);
    CreatedReady(b, k, s);
    CurrentRecord(b, k);
    StepInv(b, k, DoExec);
    ExecFields(b, k, s);
    RunnerRuns(b, Step(b, k, DoExec));
  }

  lemma ExecFields(b: Boot, k: K, s: nat)
    requires Shaped(k) && Enabled(k, DoExec) && k.sys.current != 0
    requires s == FindTask(k.procs, Current(k).id, 0) < |k.procs| && k.procs[s].space != 0
    ensures var k', q := Step(b, k, DoExec), k.procs[s];
      && k'.nextPid == k.nextPid && |k'.procs| == |k.procs| && k'.procs == k.procs[s := k'.procs[s]]
      && |k'.sys.tasks| == |k.sys.tasks|
      && (if k'.procs[s].state == Active then
            && k'.procs[s] == q.(state := Active, pages := k'.procs[s].pages, entry := k'.procs[s].entry)
            && k'.log == k.log && k'.sys.current == k.sys.current
            && Current(k') == Current(k).(space := q.space, ctl := InUser) && k'.sys.mem.v.cr3 == q.space
          else
            && k'.procs[s] == NO_PROC && k'.log == k.log + [ExecFailed(q.pid)]
            && k'.sys.tasks[k.sys.current].state == Zombie && k'.sys.tasks[k.sys.current].id == Current(k).id)
  {
    StepIs(b, k, DoExec);
    hide Step; hide PrepareExec; hide Destroy; hide FreePages; hide FindTask;
    ExecUnfold(b, k, s);
    var (m', pages, entry, ok) := PrepareExec(b.archive, k.sys.mem, k.procs[s].space, k.procs[s].pages, k.procs[s].path);
    hide Exec;
    if !ok {
      var z := MarkZombie(ExecFailState(k, m', s).sys);
      YieldTasks(z, z.current);
    }
    hide Yield;
  }

  // ---------------------------------------------------------------- threads

  /** `kthread_create`: every dead task but the caller is gone; if a thread is made, one slot that
      was unused or dead holds it, runnable, under the next id and in the kernel's directory; no
      other task changes. */
  lemma ThreadEffect(base: Base, s: Sys, ctl: Control) returns (i: nat)
    requires SysInv(base, s)
    ensures 1 <= |s.tasks|
    ensures var (s', id) := CreateThread(s, ctl);
      && |s'.tasks| == |s.tasks| && s'.current == s.current
      && s'.nextId == (if id == None then s.nextId else s.nextId + 1)
      && (forall j :: 0 <= j < |s.tasks| && (id == None || j != i) ==>
            s'.tasks[j] == if DeadAt(s, j) then NO_TASK else s.tasks[j])
      && (id.Some? ==>
            && id.value == s.nextId && 1 <= i < |s.tasks| && (s.tasks[i].state == Unused || DeadAt(s, i))
            && s'.tasks[i] == Task(s.nextId, Runnable, s.mem.v.kdir, s'.tasks[i].stack, ctl))
  {
    hide SysInv;
    TasksThere(base, s);
    CreateThreadKeeps(base, s, ctl);
    i := FirstUnused(Reap(s, 1).tasks, 1);
    forall j | 0 <= j < |s.tasks| ensures Reap(s, 1).tasks[j] == if DeadAt(s, j) then NO_TASK else s.tasks[j] {
      ReapTasks(s, 1, j);
    }
    hide Reap; hide CreateThread;
  }

  // ---------------------------------------------------------------- stores

  /** A user-mode store writes exactly the byte it names, if the walk of its own space lets user
      mode write there, and nothing otherwise. */
  lemma StoreEffect(b: Boot, k: K, x: nat, offset: nat, value: Byte)
    requires Reachable(b, k) && k.sys.current < |k.sys.tasks| && Current(k).ctl == InUser && offset < PAGE_SIZE
    ensures k.sys.mem.v.kdir in k.sys.mem.v.spaces
    ensures var k' := Store(k, x, offset, value);
      var t := Lookup(k.sys.mem.v, Current(k).space, x);
      if t.Some? && t.value.user && t.value.writable then
        var f := t.value.frame;
        && f in k.sys.mem.data && |k.sys.mem.data[f]| == PAGE_SIZE
        && k' == k.(sys := k.sys.(mem := k.sys.mem.(data := k'.sys.mem.data)))
        && k'.sys.mem.data.Keys == k.sys.mem.data.Keys
        && (forall g :: g in k.sys.mem.data && g != f ==> k'.sys.mem.data[g] == k.sys.mem.data[g])
        && k'.sys.mem.data[f] == k.sys.mem.data[f][offset := value]
      else k' == k
  {
    hide Inv; hide Reachable; hide Lookup; hide Translate; hide Store;
    ReachableInv(b, k);
    SpawnReady(b, k);
    WalkUsed(b, k, x);
    var t := Translate(k.sys.mem.v, x);
    if t.Some? && t.value.user && t.value.writable {
      StoreLands(b, k, x);
    }
    StoreUnfold(k, x, offset, value);
  }

  lemma StoreLands(b: Boot, k: K, x: nat)
    requires Inv(b, k) && k.sys.current < |k.sys.tasks| && Current(k).ctl == InUser
    requires k.sys.mem.v.kdir in k.sys.mem.v.spaces && Translate(k.sys.mem.v, x).Some?
    requires Translate(k.sys.mem.v, x).value.user && Translate(k.sys.mem.v, x).value.writable
    ensures var f := Translate(k.sys.mem.v, x).value.frame; f in k.sys.mem.data && |k.sys.mem.data[f]| == PAGE_SIZE
  {
    hide Inv; hide Translate; hide FindTask; hide Program;
    CurrentRecord(b, k);
    StoreTarget(b, k, x, FindTask(k.procs, Current(k).id, 0));
  }

  lemma StoreUnfold(k: K, x: nat, offset: nat, value: Byte)
    requires k.sys.mem.v.kdir in k.sys.mem.v.spaces
    ensures var k', t := Store(k, x, offset, value), Translate(k.sys.mem.v, x);
      if t.Some? && t.value.user && t.value.writable then
        var f := t.value.frame;
        f in k.sys.mem.data && offset < |k.sys.mem.data[f]| ==>
          && k' == k.(sys := k.sys.(mem := k.sys.mem.(data := k'.sys.mem.data)))
          && k'.sys.mem.data.Keys == k.sys.mem.data.Keys
          && (forall g :: g in k.sys.mem.data && g != f ==> k'.sys.mem.data[g] == k.sys.mem.data[g])
          && k'.sys.mem.data[f] == k.sys.mem.data[f][offset := value]
      else k' == k
  {
    hide Translate;
    var t := Translate(k.sys.mem.v, x);
    if t.Some? && t.value.frame in k.sys.mem.data && offset < |k.sys.mem.data[t.value.frame]| {
      var page := k.sys.mem.data[t.value.frame];
      assert page[..offset] + [value] + page[offset + 1..] == page[offset := value];
    }
  }

  /** What the processor uses is the walk of the current task's space. */
  lemma WalkUsed(b: Boot, k: K, x: nat)
    requires Inv(b, k) && k.sys.current < |k.sys.tasks|
    ensures k.sys.mem.v.kdir in k.sys.mem.v.spaces
    ensures Translate(k.sys.mem.v, x) == Lookup(k.sys.mem.v, Current(k).space, x)
  {
    hide ProcsInv; hide Lookup; hide SpaceOk;
  }

  // ---------------------------------------------------------------- the kernel's own pages

  /** `vmm_map_page`: the page is translated as asked afterwards, whatever it was before, if its
      table is there or a frame for it can be had; no other page of the kernel's space changes. */
  lemma KernelMapEffect(p: Pmm, v: Vm, x: nat, f: nat, present: bool, w: bool)
    requires VmInv(v) && x < VPAGES
    ensures var (p', v', ok) := Map(p, Unmap(v, v.kdir, x).0, v.kdir, x, f, present, w, false);
      && v'.kdir == v.kdir && v'.kdir in v'.spaces
      && (ok <==> x / ENTRIES in v.spaces[v.kdir].tables || FreeDirect(p) != {})
      && Lookup(v', v.kdir, x) == (if ok && present then Some(Mapping(f, w, false)) else None)
      && (forall y :: y != x ==> Lookup(v', v.kdir, y) == Lookup(v, v.kdir, y))
  {
    var v1 := Unmap(v, v.kdir, x).0;
    UnmapTranslations(v, v.kdir, x);
    UnmapKeepsInv(v, v.kdir, x);
    MapTranslations(p, v1, v.kdir, x, f, present, w, false);
    MapSucceeds(p, v1, v.kdir, x, f, present, w, false);
    UnmappedKernel(v, x);
    hide Map; hide Unmap; hide Lookup; hide SpaceOk; hide FreeDirect; hide TlbOk;
  }

  lemma UnmappedKernel(v: Vm, x: nat)
    requires VmInv(v)
    ensures var v1 := Unmap(v, v.kdir, x).0;
      && v1.kdir == v.kdir && v1.kdir in v1.spaces && x !in v1.spaces[v.kdir].leaves && Lookup(v1, v.kdir, x) == None
      && v1.spaces[v.kdir].tables == v.spaces[v.kdir].tables
  {
    assert SpaceOk(v, v.kdir);
  }

  /** The step does just that. */
  lemma KernelMapStep(b: Boot, k: K, x: nat, f: nat, present: bool, w: bool)
    requires Reachable(b, k) && Shaped(k) && Enabled(k, DoKernelMap(x, f, present, w))
    ensures var v, v' := k.sys.mem.v, Step(b, k, DoKernelMap(x, f, present, w)).sys.mem.v;
      && v'.kdir == v.kdir && v'.kdir in v'.spaces
      && (x / ENTRIES in v.spaces[v.kdir].tables || FreeDirect(k.sys.mem.p) != {} ==>
            Lookup(v', v.kdir, x) == if present then Some(Mapping(f, w, false)) else None)
      && (forall y :: y != x ==> Lookup(v', v.kdir, y) == Lookup(v, v.kdir, y))
  {
    hide Inv; hide Reachable; hide VmInv; hide Lookup; hide FreeDirect; hide Map; hide Unmap; hide Step;
    ReachableInv(b, k);
    VmSound(b, k);
    KernelStepIs(b, k, DoKernelMap(x, f, present, w));
    KernelMapEffect(k.sys.mem.p, k.sys.mem.v, x, f, present, w);
  }

  lemma KernelStepIs(b: Boot, k: K, a: Action)
    requires Shaped(k) && Enabled(k, a)
    ensures var m, m' := k.sys.mem, Step(b, k, a).sys.mem;
      && (a.DoKernelMap? ==>
            && a.vpn < VPAGES
            && m'.v == Map(m.p, Unmap(m.v, m.v.kdir, a.vpn).0, m.v.kdir, a.vpn, a.frame, a.present, a.writable, false).1)
      && (a.DoKernelUnmap? ==> m'.v == Unmap(m.v, m.v.kdir, a.vpn).0)
  {
    hide Map; hide Unmap; hide Spawn; hide Exec; hide Exit; hide Poll; hide Yield; hide CreateThread;
  }

  lemma KernelUnmapStep(b: Boot, k: K, x: nat)
    requires Reachable(b, k) && Shaped(k) && Enabled(k, DoKernelUnmap(x))
    ensures var v, v' := k.sys.mem.v, Step(b, k, DoKernelUnmap(x)).sys.mem.v;
      && v'.kdir == v.kdir && v'.kdir in v'.spaces && Lookup(v', v.kdir, x) == None
      && (forall y :: y != x ==> Lookup(v', v.kdir, y) == Lookup(v, v.kdir, y))
  {
    hide Inv; hide Reachable; hide Lookup; hide Unmap; hide VmInv; hide Step;
    ReachableInv(b, k);
    VmSound(b, k);
    KernelStepIs(b, k, DoKernelUnmap(x));
    KernelUnmapEffect(k.sys.mem.v, x);
  }

  lemma KernelUnmapEffect(v: Vm, x: nat)
    requires VmInv(v)
    ensures var v' := Unmap(v, v.kdir, x).0;
      && v'.kdir == v.kdir && v'.kdir in v'.spaces && Lookup(v', v.kdir, x) == None
      && (forall y :: y != x ==> Lookup(v', v.kdir, y) == Lookup(v, v.kdir, y))
  {
    UnmapTranslations(v, v.kdir, x);
    UnmappedKernel(v, x);
    hide Unmap; hide Lookup; hide SpaceOk; hide TlbOk;
  }

  lemma VmSound(b: Boot, k: K)
    requires Inv(b, k)
    ensures VmInv(k.sys.mem.v)
  {
    hide ProcsInv; hide VmInv;
  }
}
