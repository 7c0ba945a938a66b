/**
 * The whole kernel as a state machine: memory, heap, scheduler and process table.  A step is
 * one kernel operation of the current task; a task that yields is resumed where it yielded.
 * Table sizes are parameters; process and task ids are unbounded.
 */
module Machine {
  import opened Common
  import opened Archive
  import opened VmSpec
  import opened UserPages
  import opened SchedSpec

  const CODE_VPN: nat := 0x400       // USER_INIT_CODE_ADDR, 0x00400000
  const STACK_VPN: nat := 0x7ff      // USER_INIT_STACK_ADDR, 0x007ff000
  const FAILED: int := -1
  const SYS_ERR: Word32 := 0xFFFF_FFFF
  const IMAGE_HEADER: nat := 12
  const IMAGE_MAGIC: Bytes := [69, 77, 88, 70]  // "EMXF"

  datatype ProcState = Vacant | Created | Active | Exited

  datatype Process = Process(
    state: ProcState, pid: nat, taskId: nat, parent: nat, space: nat, entry: nat, status: Word32,
    path: Bytes, pages: seq<Page>)

  const NO_PROC := Process(Vacant, 0, 0, 0, 0, 0, 0, [], [])

  /** What happened, in order: the history against which exit and wait are judged. */
  datatype Event =
    | Spawned(parent: nat, child: nat)
    | ExecFailed(pid: nat)
    | DidExit(pid: nat, status: Word32)
    | Collected(parent: nat, child: nat, status: Word32)
    | WaitFailed(parent: nat, child: nat)

  /** Fixed at boot: the kernel's memory and the archive. */
  datatype Boot = Boot(base: Base, archive: Bytes)

  datatype K = K(sys: Sys, procs: seq<Process>, nextPid: nat, log: seq<Event>)

  // ---------------------------------------------------------------- process table

  /** First vacant slot at or after `i`; the table size if none. */
  function FirstVacant(procs: seq<Process>, i: nat): (k: nat)
    requires i <= |procs|
    ensures i <= k <= |procs|
    ensures k < |procs| ==> procs[k].state == Vacant
    ensures forall j :: i <= j < k ==> procs[j].state != Vacant
    decreases |procs| - i
  {
    if i == |procs| || procs[i].state == Vacant then i else FirstVacant(procs, i + 1)
  }

  /** First occupied slot with this pid; the table size if none. */
  function FindPid(procs: seq<Process>, pid: nat, i: nat): (k: nat)
    requires i <= |procs|
    ensures i <= k <= |procs|
    ensures k < |procs| ==> procs[k].state != Vacant && procs[k].pid == pid
    ensures forall j :: i <= j < k ==> !(procs[j].state != Vacant && procs[j].pid == pid)
    decreases |procs| - i
  {
    if i == |procs| || (procs[i].state != Vacant && procs[i].pid == pid) then i else FindPid(procs, pid, i + 1)
  }

  /** First occupied slot with this task id; the table size if none. */
  function FindTask(procs: seq<Process>, id: nat, i: nat): (k: nat)
    requires i <= |procs|
    ensures i <= k <= |procs|
    ensures k < |procs| ==> procs[k].state != Vacant && procs[k].taskId == id
    ensures forall j :: i <= j < k ==> !(procs[j].state != Vacant && procs[j].taskId == id)
    decreases |procs| - i
  {
    if i == |procs| || (procs[i].state != Vacant && procs[i].taskId == id) then i else FindTask(procs, id, i + 1)
  }

  /** What `user_process_orphan_children` does to one record. */
  function OrphanOne(p: Process, pid: nat): Process
  {
    if p.state == Vacant || p.parent != pid then p
    else if p.state == Exited then NO_PROC
    else p.(parent := 0)
  }

  function Orphan(procs: seq<Process>, pid: nat): (r: seq<Process>)
    ensures |r| == |procs|
    ensures forall i :: 0 <= i < |procs| ==> r[i] == OrphanOne(procs[i], pid)
  {
    seq(|procs|, i requires 0 <= i < |procs| => OrphanOne(procs[i], pid))
  }

  // ---------------------------------------------------------------- images

  /** `load_emxf` up to the mapping: code bytes and entry offset of a well-formed image. */
  function ParseImage(b: Bytes): (r: Option<(Bytes, nat)>)
    ensures r.Some? ==> |r.value.0| <= PAGE_SIZE && r.value.1 < |r.value.0|
    ensures r.Some? ==> IMAGE_HEADER + |r.value.0| <= |b| && r.value.0 == b[IMAGE_HEADER..IMAGE_HEADER + |r.value.0|]
  {
    if |b| < IMAGE_HEADER || b[..4] != IMAGE_MAGIC then None
    else
      var size, entry := ReadLe32(b, 4), ReadLe32(b, 8);
      if size > PAGE_SIZE || entry >= size || IMAGE_HEADER + size > |b| then None
      else Some((b[IMAGE_HEADER..IMAGE_HEADER + size], entry))
  }

  /** The EMXF layout: magic, code size, entry offset, code. */
  function Image(code: Bytes, entry: nat): Bytes
    requires |code| < U32 && entry < U32
  {
    IMAGE_MAGIC + PackLe32(|code|) + PackLe32(entry) + code
  }

  /** Accepted images are exactly those that begin with the layout of a program that fits one
      page and starts inside its code, and that program is what is loaded. */
  lemma ImageExact(b: Bytes, code: Bytes, entry: nat)
    ensures ParseImage(b) == Some((code, entry)) <==>
            |code| <= PAGE_SIZE && entry < |code| && Image(code, entry) <= b
  {
    if ParseImage(b) == Some((code, entry)) {
      ReadPack(b, 4);
      ReadPack(b, 8);
      assert b[..12] == b[..4] + b[4..8] + b[8..12];
      assert b[..12 + |code|] == b[..12] + b[12..12 + |code|];
    }
    if |code| <= PAGE_SIZE && entry < |code| && Image(code, entry) <= b {
      var i := Image(code, entry);
      assert i[..4] == IMAGE_MAGIC && i[4..8] == PackLe32(|code|) && i[8..12] == PackLe32(entry) && i[12..] == code;
      assert b[..|i|] == i;
      assert b[..4] == i[..4] && b[4..8] == i[4..8] && b[8..12] == i[8..12] && b[12..12 + |code|] == i[12..];
      PackRead(|code|, b, 4);
      PackRead(entry, b, 8);
    }
  }

  /** The program an archive holds under a path. */
  function Program(archive: Bytes, path: Bytes): (r: Option<(Bytes, nat)>)
    ensures r.Some? ==> |r.value.0| <= PAGE_SIZE && r.value.1 < |r.value.0|
  {
    var f := Find(archive, path);
    if f == None then None else ParseImage(f.value)
  }

  /** `user_prepare_exec` on a record with these pages: map code and stack, or free all and
      fail. */
  function PrepareExec(archive: Bytes, m: Mem, d: nat, pages: seq<Page>, path: Bytes): (Mem, seq<Page>, nat, bool)
  {
    var g := Program(archive, path);
    if g == None then (FreePages(m, d, pages), [], 0, false)
    else
      var (m1, pages1, ok1) := MapCopied(m, d, pages, CODE_VPN, g.value.0, false);
      if !ok1 then (FreePages(m1, d, pages1), [], 0, false)
      else
        var (m2, pages2, ok2) := MapCopied(m1, d, pages1, STACK_VPN, [], true);
        if !ok2 then (FreePages(m2, d, pages2), [], 0, false)
        else (m2, pages2, CODE_VPN * 4096 + g.value.1, true)
  }

  // ---------------------------------------------------------------- operations

  function Current(k: K): Task
    requires k.sys.current < |k.sys.tasks|
  {
    k.sys.tasks[k.sys.current]
  }

  function SetControl(s: Sys, ctl: Control): Sys
    requires s.current < |s.tasks|
  {
    s.(tasks := s.tasks[s.current := s.tasks[s.current].(ctl := ctl)])
  }

  /** `user_spawn`: the new pid, or -1. */
  function Spawn(b: Boot, k: K, path: Bytes): (K, int)
    requires k.sys.current < |k.sys.tasks| && k.sys.mem.v.kdir in k.sys.mem.v.spaces
  {
    if |path| == 0 || |path| >= PATH_SIZE || Find(b.archive, path) == None then (k, FAILED)
    else
      var me := FindTask(k.procs, Current(k).id, 0);
      var slot := FirstVacant(k.procs, 0);
      if slot == |k.procs| then (k, FAILED)
      else
        var k1 := k.(nextPid := k.nextPid + 1);
        var (p, v, d) := Create(k.sys.mem.p, k.sys.mem.v);
        if d == 0 then (k1, FAILED)
        else
          var (s2, id) := CreateThread(k.sys.(mem := k.sys.mem.(p := p, v := v)), EnterUser);
          if id == None then
            var (p3, v3) := Destroy(s2.mem.p, s2.mem.v, d);
            (k1.(sys := s2.(mem := s2.mem.(p := p3, v := v3))), FAILED)
          else
            var parent := if me < |k.procs| then k.procs[me].pid else 0;
            (k1.(sys := s2, log := k.log + [Spawned(parent, k.nextPid)],
                 procs := k.procs[slot := Process(Created, k.nextPid, id.value, parent, d, 0, 0, path, [])]),
             k.nextPid as int)
  }

  /** `kthread_exit`: never returns to the caller. */
  function Die(k: K): K
    requires k.sys.current < |k.sys.tasks|
  {
    k.(sys := Yield(MarkZombie(k.sys)))
  }

  /** `user_exec_task` from a fresh task to user mode, or to the death of the task. */
  function Exec(b: Boot, k: K): K
    requires k.sys.current < |k.sys.tasks|
  {
    var s := FindTask(k.procs, Current(k).id, 0);
    if s == |k.procs| then Die(k)
    else
      var q := k.procs[s];
      var (m, pages, entry, ok) := PrepareExec(b.archive, k.sys.mem, q.space, q.pages, q.path);
      if ok && k.sys.current != 0 && q.space != 0 then
        k.(sys := SetControl(Adopt(k.sys.(mem := m), q.space), InUser),
           procs := k.procs[s := q.(state := Active, pages := pages, entry := entry)])
      else
        var m' := if ok then FreePages(m, q.space, pages) else m;
        var (p, v) := Destroy(m'.p, m'.v, q.space);
        Die(k.(sys := k.sys.(mem := m'.(p := p, v := v)), procs := k.procs[s := NO_PROC],
               log := k.log + [ExecFailed(q.pid)]))
  }

  /** The process-table half of `user_exit_current` for the record in slot `s`. */
  function Retire(procs: seq<Process>, s: nat, status: Word32): (r: seq<Process>)
    requires s < |procs|
    ensures |r| == |procs|
  {
    var q := procs[s];
    var r := Orphan(procs[s := q.(state := Exited, status := status, pages := [], space := 0)], q.pid);
    if FindPid(r, q.parent, 0) == |r| then r[s := NO_PROC] else r
  }

  /** `sys_exit`. */
  function Exit(k: K, status: Word32): K
    requires k.sys.current < |k.sys.tasks|
  {
    var s := FindTask(k.procs, Current(k).id, 0);
    if s == |k.procs| then Die(k)
    else
      var q := k.procs[s];
      Die(k.(sys := k.sys.(mem := FreePages(k.sys.mem, q.space, q.pages)),
             procs := Retire(k.procs, s, status), log := k.log + [DidExit(q.pid, status)]))
  }

  /** Entry of `user_wait`: the caller's record is looked up once. */
  function Wait(k: K, pid: nat): K
    requires k.sys.current < |k.sys.tasks|
  {
    var s := FindTask(k.procs, Current(k).id, 0);
    if s == |k.procs| then k else k.(sys := SetControl(k.sys, InWait(pid, s)))
  }

  /** One turn of the loop of `user_wait`: fail, collect the status, or yield. */
  function Poll(k: K, pid: nat, slot: nat): K
    requires k.sys.current < |k.sys.tasks| && slot < |k.procs|
  {
    var me := k.procs[slot].pid;
    var c := FindPid(k.procs, pid, 0);
    if c == |k.procs| || k.procs[c].parent != me then
      k.(sys := SetControl(k.sys, InUser), log := k.log + [WaitFailed(me, pid)])
    else if k.procs[c].state == Exited then
      k.(sys := SetControl(k.sys, InUser), procs := k.procs[c := NO_PROC],
         log := k.log + [Collected(me, pid, k.procs[c].status)])
    else k.(sys := Yield(k.sys))
  }

  /** The result register of `sys_wait` after a turn that returns: the status, or all ones for
      -1; nothing when the turn yields. */
  function Answer(k: K, pid: nat, slot: nat): Option<Word32>
    requires slot < |k.procs|
  {
    var c := FindPid(k.procs, pid, 0);
    if c == |k.procs| || k.procs[c].parent != k.procs[slot].pid then Some(SYS_ERR)
    else if k.procs[c].state == Exited then Some(k.procs[c].status)
    else None
  }

  /** The translation the processor uses: the cached one if there is one. */
  function Translate(v: Vm, x: nat): Option<Mapping>
    requires v.kdir in v.spaces
  {
    if x in v.tlb then Some(v.tlb[x]) else Lookup(v, v.cr3, x)
  }

  /** A user-mode store of one byte, to a page the processor lets it write. */
  function Store(k: K, x: nat, offset: nat, value: Byte): K
    requires k.sys.mem.v.kdir in k.sys.mem.v.spaces
  {
    var t := Translate(k.sys.mem.v, x);
    if t.Some? && t.value.user && t.value.writable && t.value.frame in k.sys.mem.data
       && offset < |k.sys.mem.data[t.value.frame]|
    then
      var f := t.value.frame;
      var page: Bytes := k.sys.mem.data[f];
      var page': Bytes := page[..offset] + [value] + page[offset + 1..];
      k.(sys := k.sys.(mem := k.sys.mem.(data := k.sys.mem.data[f := page'])))
    else k
  }

  // ---------------------------------------------------------------- steps and runs

  datatype Action =
    | DoSpawn(path: Bytes)
    | DoExec
    | DoExit(status: Word32)
    | DoWait(pid: nat)
    | DoPoll
    | DoYield
    | DoCreateThread
    | DoEnterThread
    | DoExitThread
    | DoFill(page: nat)
    | DoStore(vpn: nat, offset: nat, value: Byte)
    | DoKernelMap(vpn: nat, frame: nat, present: bool, writable: bool)
    | DoKernelUnmap(vpn: nat)

  /** Kernel code maps and unmaps pages of its own directory anywhere but in the direct map. */
  predicate Beside(vpn: nat) { vpn < VPAGES && !(BASE_VPN <= vpn < BASE_VPN + DIRECT_PAGES) }

  /** What the current task can do depends on where it is. */
  predicate Enabled(k: K, a: Action)
    requires k.sys.current < |k.sys.tasks|
  {
    var ctl := Current(k).ctl;
    match a
    case DoSpawn(path) => IsCString(path) && (ctl == InUser || ctl == InKernel)
    case DoExec => ctl == EnterUser
    case DoExit(_) => ctl == InUser
    case DoWait(_) => ctl == InUser
    case DoPoll => ctl.InWait?
    case DoYield => ctl == InUser || ctl == InKernel
    case DoCreateThread => ctl == InKernel
    case DoEnterThread => ctl == EnterKernel
    case DoExitThread => ctl == InKernel && k.sys.current != 0
    case DoFill(_) => true
    case DoStore(_, _, _) => ctl == InUser
    case DoKernelMap(vpn, _, _, _) => ctl == InKernel && Beside(vpn)
    case DoKernelUnmap(vpn) => ctl == InKernel && Beside(vpn)
  }

  /** Basic shape, needed to take a step at all. */
  predicate Shaped(k: K)
  {
    && k.sys.current < |k.sys.tasks| && k.sys.mem.v.kdir in k.sys.mem.v.spaces
    && (Current(k).ctl.InWait? ==> Current(k).ctl.slot < |k.procs|)
  }

  /** `vmm_map_page` of a supervisor page: an old translation is replaced. */
  function KernelMapPage(k: K, vpn: nat, f: nat, present: bool, w: bool): K
  {
    var m := k.sys.mem;
    var (p, v, ok) := Map(m.p, Unmap(m.v, m.v.kdir, vpn).0, m.v.kdir, vpn, f, present, w, false);
    k.(sys := k.sys.(mem := m.(p := p, v := v)))
  }

  /** `vmm_unmap_page`. */
  function KernelUnmapPage(k: K, vpn: nat): K
  {
    k.(sys := k.sys.(mem := k.sys.mem.(v := Unmap(k.sys.mem.v, k.sys.mem.v.kdir, vpn).0)))
  }

  function Step(b: Boot, k: K, a: Action): K
    requires Shaped(k) && Enabled(k, a)
  {
    match a
    case DoSpawn(path) => Spawn(b, k, path).0
    case DoExec => Exec(b, k)
    case DoExit(status) => Exit(k, status)
    case DoWait(pid) => Wait(k, pid)
    case DoPoll => Poll(k, Current(k).ctl.pid, Current(k).ctl.slot)
    case DoYield => k.(sys := Yield(k.sys))
    case DoCreateThread => k.(sys := CreateThread(k.sys, EnterKernel).0)
    case DoEnterThread => k.(sys := SetControl(k.sys, InKernel))
    case DoExitThread => Die(k)
    case DoFill(x) => k.(sys := k.sys.(mem := k.sys.mem.(v := Fill(k.sys.mem.v, x))))
    case DoStore(x, offset, value) => Store(k, x, offset, value)
    case DoKernelMap(vpn, f, present, w) => KernelMapPage(k, vpn, f, present, w)
    case DoKernelUnmap(vpn) => KernelUnmapPage(k, vpn)
  }
}
