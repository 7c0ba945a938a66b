/** Nothing one task does changes another process's memory. */
module Isolation {
  import opened Common
  import opened Archive
  import opened PmmSpec
  import opened VmSpec
  import opened Owners
  import opened UserPages
  import opened SchedSpec
  import opened Machine
  import opened ProcInv
  import opened StepProofs
  import opened StartProofs
  import opened SpawnProofs
  import opened RunProofs
  import opened Theorems
  import opened Delivery

  // ---------------------------------------------------------------- translations

  /** A running process's space holds exactly its two pages. */
  lemma TwoPages(archive: Bytes, q: Process, v: Vm, data: map<nat, Bytes>)
    requires TextOk(archive, q, v, data) && PagesMatch(v.spaces[q.space].leaves, q.pages)
    ensures v.spaces[q.space].leaves ==
              map[CODE_VPN := Mapping(q.pages[0].frame, false, true), STACK_VPN := Mapping(q.pages[1].frame, true, true)]
  {
  }

  lemma SameLookups(base: Base, v: Vm, v': Vm, d: nat, x: nat)
    requires VmInv(v) && VmInv(v') && KernelHalf(base, v) && KernelHalf(base, v')
    requires d in v.spaces && d in v'.spaces && d != base.kdir && v'.spaces[d].leaves == v.spaces[d].leaves
    ensures x / ENTRIES < KERNEL_PDE ==> Lookup(v', d, x) == Lookup(v, d, x)
    ensures x / ENTRIES >= KERNEL_PDE && Lookup(v', d, x).Some? ==> !Lookup(v', d, x).value.user
  {
    assert SpaceOk(v, d) && SpaceOk(v', d);
    if x / ENTRIES < KERNEL_PDE {
      if x in v.spaces[d].leaves {
        RightsExact(v, d, x);
        RightsExact(v', d, x);
      }
    }
  }

  lemma RunningSpace(b: Boot, k: K, t: nat)
    requires Inv(b, k) && t < |k.procs| && k.procs[t].state == Active
    ensures VmInv(k.sys.mem.v) && KernelHalf(b.base, k.sys.mem.v)
    ensures var q := k.procs[t];
      && q.space in k.sys.mem.v.spaces && q.space != b.base.kdir && |q.pages| == 2
      && k.sys.mem.v.spaces[q.space].leaves ==
           map[CODE_VPN := Mapping(q.pages[0].frame, false, true), STACK_VPN := Mapping(q.pages[1].frame, true, true)]
      && q.pages[0].frame in k.sys.mem.data && q.pages[1].frame in k.sys.mem.data
  {
    NotDead(k.procs, k.sys.tasks, k.sys.mem.v, t);
    assert TextOk(b.archive, k.procs[t], k.sys.mem.v, k.sys.mem.data);
    TwoPages(b.archive, k.procs[t], k.sys.mem.v, k.sys.mem.data);
  }

  // ---------------------------------------------------------------- bytes

  lemma {:induction false} FreePagesData(m: Mem, d: nat, pages: seq<Page>)
    ensures FreePages(m, d, pages).data == m.data
    decreases |pages|
  {
    if pages != [] {
      FreePagesData(m.(v := Unmap(m.v, d, pages[0].vpn).0, p := Free(m.p, pages[0].frame)), d, pages[1..]);
    }
  }

  lemma {:induction false} ReapData(s: Sys, i: nat)
    ensures Reap(s, i).mem.data == s.mem.data
    decreases |s.tasks| - i
  {
    if i < |s.tasks| {
      ReapData(if i != s.current && s.tasks[i].state == Zombie then Cleanup(s, i) else s, i + 1);
    }
  }

  lemma YieldData(s: Sys)
    requires s.current < |s.tasks|
    ensures Yield(s).mem.data == s.mem.data
  {
    ReapData(s, 1);
  }

  lemma SpawnData(k: K, path: Bytes, slot: nat)
    requires Shaped(k) && slot < |k.procs|
    ensures SpawnIn(k, path, slot).sys.mem.data == k.sys.mem.data
  {
    var (p, v, d) := Create(k.sys.mem.p, k.sys.mem.v);
    ReapData(k.sys.(mem := k.sys.mem.(p := p, v := v)), 1);
  }

  lemma ExecData(b: Boot, k: K, f: nat)
    requires Inv(b, k) && Current(k).ctl == EnterUser && f in k.sys.mem.p.used && f in k.sys.mem.data
    ensures f in Exec(b, k).sys.mem.data && Exec(b, k).sys.mem.data[f] == k.sys.mem.data[f]
  {
    CurrentRecord(b, k);
    var s := FindTask(k.procs, Current(k).id, 0);
    var m', pages, entry, ok := Prepared(b, k, s);
    ExecUnfold(b, k, s);
    if !ok {
      YieldData(MarkZombie(ExecFailState(k, m', s).sys));
    }
  }

  lemma ExitData(k: K, status: Word32)
    requires k.sys.current < |k.sys.tasks|
    ensures Exit(k, status).sys.mem.data == k.sys.mem.data
  {
    var s := FindTask(k.procs, Current(k).id, 0);
    if s == |k.procs| {
      YieldData(MarkZombie(k.sys));
    } else {
      var m := FreePages(k.sys.mem, k.procs[s].space, k.procs[s].pages);
      FreePagesData(k.sys.mem, k.procs[s].space, k.procs[s].pages);
      YieldData(MarkZombie(k.sys.(mem := m)));
    }
  }

  lemma PollData(k: K, pid: nat, slot: nat)
    requires k.sys.current < |k.sys.tasks| && slot < |k.procs|
    ensures Poll(k, pid, slot).sys.mem.data == k.sys.mem.data
  {
    YieldData(k.sys);
  }

  /** A store by the current process reaches no frame but its own stack page. */
  lemma StoreData(b: Boot, k: K, x: nat, offset: nat, value: Byte, f: nat)
    requires Inv(b, k) && Current(k).ctl == InUser && f in k.sys.mem.data
    requires var s := FindTask(k.procs, Current(k).id, 0);
      s < |k.procs| && k.procs[s].state == Active && |k.procs[s].pages| == 2 && f != k.procs[s].pages[1].frame
    ensures k.sys.mem.v.kdir in k.sys.mem.v.spaces
    ensures f in Store(k, x, offset, value).sys.mem.data && Store(k, x, offset, value).sys.mem.data[f] == k.sys.mem.data[f]
  {
    hide SysInv;
    hide ProcsInv;
    InvShaped(b, k);
    var t := Translate(k.sys.mem.v, x);
    if t.Some? && t.value.user && t.value.writable {
      StoreTarget(b, k, x, FindTask(k.procs, Current(k).id, 0));
    }
  }

  lemma InvParts(b: Boot, k: K)
    requires Inv(b, k)
    ensures Partition(k.sys.mem.p, ClaimsOf(b, k), k.sys.mem.v) && SpacesOk(k.procs, k.sys.tasks, k.sys.mem.v)
    ensures k.sys.mem.v.kdir == b.base.kdir
  {
  }

  /** The frames of a running process are allocated. */
  lemma PagesUsed(b: Boot, k: K, t: nat, i: nat)
    requires Inv(b, k) && t < |k.procs| && k.procs[t].state == Active && i < 2
    ensures |k.procs[t].pages| == 2 && k.procs[t].pages[i].frame in k.sys.mem.p.used && k.procs[t].pages[i].frame in k.sys.mem.data
  {
    hide SysInv; hide ProcsInv; hide VmInv; hide KernelHalf; hide Program;
    RunningSpace(b, k, t);
    InvParts(b, k);
    assert FrameOf(ClaimsOf(b, k), k.sys.mem.v, UserLeaf(k.procs[t].space, if i == 0 then CODE_VPN else STACK_VPN)) == Some(k.procs[t].pages[i].frame);
  }

  /** A frame of a process other than the current one is not the current one's stack. */
  lemma OthersFrames(b: Boot, k: K, t: nat, i: nat, s: nat)
    requires Inv(b, k) && t < |k.procs| && k.procs[t].state == Active && i < 2
    requires s < |k.procs| && k.procs[s].state == Active && k.procs[s].taskId != k.procs[t].taskId
    ensures |k.procs[t].pages| == 2 && |k.procs[s].pages| == 2 && k.procs[t].pages[i].frame != k.procs[s].pages[1].frame
  {
    hide SysInv;
    hide ProcsInv;
    RunningSpace(b, k, t);
    RunningSpace(b, k, s);
    InvParts(b, k);
    DistinctSpaces(k, s, t);
    OtherFrame(k.sys.mem.p, ClaimsOf(b, k), k.sys.mem.v, k.procs[t].space, if i == 0 then CODE_VPN else STACK_VPN, k.procs[s].space, STACK_VPN);
  }

  lemma OtherFrame(p: Pmm, c: Claims, v: Vm, d1: nat, x1: nat, d2: nat, x2: nat)
    requires Partition(p, c, v) && d1 in v.spaces && d2 in v.spaces && d1 != v.kdir && d2 != v.kdir
    requires x1 in v.spaces[d1].leaves && x2 in v.spaces[d2].leaves
    ensures d1 != d2 ==> v.spaces[d1].leaves[x1].frame != v.spaces[d2].leaves[x2].frame
  {
    if v.spaces[d1].leaves[x1].frame == v.spaces[d2].leaves[x2].frame {
      DistinctFrames(p, c, v, d1, x1, d2, x2);
    }
  }

  lemma DistinctSpaces(k: K, s: nat, t: nat)
    requires SpacesOk(k.procs, k.sys.tasks, k.sys.mem.v) && s < |k.procs| && t < |k.procs|
    requires Owning(k.procs[s]) && Owning(k.procs[t]) && k.procs[s].taskId != k.procs[t].taskId
    ensures k.procs[s].space != k.procs[t].space
  {
  }

  lemma StepData(b: Boot, k: K, a: Action, t: nat, i: nat)
    requires Inv(b, k) && Shaped(k) && Enabled(k, a)
    requires t < |k.procs| && k.procs[t].state == Active && k.procs[t].taskId != Current(k).id && i < 2
    ensures |k.procs[t].pages| == 2
    ensures var f := k.procs[t].pages[i].frame;
      f in k.sys.mem.data && f in Step(b, k, a).sys.mem.data && Step(b, k, a).sys.mem.data[f] == k.sys.mem.data[f]
  {
    hide SysInv;
    hide ProcsInv;
    PagesUsed(b, k, t, i);
    match a
    case DoSpawn(path) =>
      SpawnUnfold(b, k, path);
      var slot := FirstVacant(k.procs, 0);
      if slot < |k.procs| { SpawnData(k, path, slot); }
    case DoExec => ExecData(b, k, k.procs[t].pages[i].frame);
    case DoExit(status) => ExitData(k, status);
    case DoPoll => PollData(k, Current(k).ctl.pid, Current(k).ctl.slot);
    case DoYield => YieldData(k.sys);
    case DoCreateThread => ReapData(k.sys, 1);
    case DoExitThread => YieldData(MarkZombie(k.sys));
    case DoStore(x, offset, value) =>
      CurrentRecord(b, k);
      var s := FindTask(k.procs, Current(k).id, 0);
      OthersFrames(b, k, t, i, s);
      StoreData(b, k, x, offset, value, k.procs[t].pages[i].frame);
    case _ =>
  }

  // ---------------------------------------------------------------- the theorem

  /** A step of any other task, system call, exit, reaping or user-mode store, leaves a
      running process running in the same space, with every user-half translation of that
      space, frame and rights, and every byte of its pages unchanged, and user mode shut out of
      the kernel half. */
  lemma ProcessIsolated(b: Boot, k: K, a: Action, t: nat, x: nat, i: nat)
    requires Reachable(b, k) && Shaped(k) && Enabled(k, a) && i < 2
    requires t < |k.procs| && k.procs[t].state == Active && k.procs[t].taskId != Current(k).id
    ensures var k' := Step(b, k, a);
      var q := k.procs[t];
      && t < |k'.procs| && k'.procs[t].state == Active && SameProcess(q, k'.procs[t])
      && k'.sys.mem.v.kdir in k'.sys.mem.v.spaces && |q.pages| == 2
      && (x / ENTRIES < KERNEL_PDE ==> Lookup(k'.sys.mem.v, q.space, x) == Lookup(k.sys.mem.v, q.space, x))
      && (x / ENTRIES >= KERNEL_PDE && Lookup(k'.sys.mem.v, q.space, x).Some? ==>
            !Lookup(k'.sys.mem.v, q.space, x).value.user)
      && q.pages[i].frame in k.sys.mem.data && q.pages[i].frame in k'.sys.mem.data
      && k'.sys.mem.data[q.pages[i].frame] == k.sys.mem.data[q.pages[i].frame]
  {
    ReachableInv(b, k);
    hide Inv;
    StepInv(b, k, a);
    StepRecords(b, k, a);
    var k' := Step(b, k, a);
    assert RecordStep(k, k', t);
    RunningSpace(b, k, t);
    RunningSpace(b, k', t);
    SameLookups(b.base, k.sys.mem.v, k'.sys.mem.v, k.procs[t].space, x);
    StepData(b, k, a, t, i);
  }
}
