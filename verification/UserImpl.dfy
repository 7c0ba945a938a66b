/**
 * `kernel/user.c` and the process system calls of `kernel/syscall.c` on the process table.
 * Each method does to its table, to the scheduler and to memory what `Machine` says.
 */
module UserImpl {
  import opened Common
  import opened Archive
  import opened PmmSpec
  import opened VmSpec
  import opened UserPages
  import opened SchedSpec
  import opened SchedImpl
  import opened Machine

  /** What every record keeps: a free record is zeroed, and a process is younger than its
      parent. */
  predicate Sound(q: Process, nextPid: nat)
  {
    && IsCString(q.path)
    && (q.state == Vacant ==> q == NO_PROC)
    && (q.state != Vacant ==> q.parent < q.pid < nextPid)
  }

  /** The loop of `user_process_orphan_children` from record `i` on, with the parent's record
      in slot `s` read on every turn. */
  function OrphanFrom(ps: seq<Process>, s: nat, i: nat): (r: seq<Process>)
    requires s < |ps| && i <= |ps|
    ensures |r| == |ps|
    decreases |ps| - i
  {
    if i == |ps| then ps else OrphanFrom(ps[i := OrphanOne(ps[i], ps[s].pid)], s, i + 1)
  }

  /** A parent that is not its own child stays as it is, so every record is held against the
      same pid. */
  lemma {:induction false} OrphanAll(ps: seq<Process>, s: nat, i: nat)
    requires s < |ps| && i <= |ps|
    ensures ps[s].parent != ps[s].pid ==>
              OrphanFrom(ps, s, i) == ps[..i] + Orphan(ps, ps[s].pid)[i..]
    decreases |ps| - i
  {
    if ps[s].parent != ps[s].pid {
      if i < |ps| {
        var next := ps[i := OrphanOne(ps[i], ps[s].pid)];
        assert next[s] == ps[s];
        OrphanAll(next, s, i + 1);
        var r, r' := Orphan(ps, ps[s].pid), Orphan(next, ps[s].pid);
        assert r'[i + 1..] == r[i + 1..];
        assert next[..i + 1] == ps[..i] + [r[i]];
      }
    }
  }

  class Processes {
    const sched: Scheduler
    const procs: array<Process>
    const archive: Bytes
    var nextPid: nat
    ghost var log: seq<Event>

    ghost predicate Valid()
      reads this, sched, procs
    {
      && sched.Valid() && nextPid >= 1
      && forall i :: 0 <= i < procs.Length ==> Sound(procs[i], nextPid)
    }

    ghost function State(): K
      reads this, sched, sched.tasks, procs
    {
      K(sched.State(), procs[..], nextPid, log)
    }

    constructor (size: nat, s: Scheduler, a: Bytes)
      requires s.Valid()
      ensures Valid() && fresh(procs) && sched == s && archive == a
      ensures State() == K(s.State(), seq(size, _ => NO_PROC), 1, [])
    {
      sched, archive, nextPid, log := s, a, 1, [];
      procs := new Process[size](_ => NO_PROC);
      new;
      assert procs[..] == seq(size, _ => NO_PROC);
    }

    // ------------------------------------------------------------ the table

    /** `user_process_find_by_pid`; the table size is NULL. */
    method FindByPid(pid: nat) returns (k: nat)
      ensures k == FindPid(procs[..], pid, 0)
    {
      for i := 0 to procs.Length
        invariant FindPid(procs[..], pid, 0) == FindPid(procs[..], pid, i)
      {
        if procs[i].state != Vacant && procs[i].pid == pid { return i; }
      }
      return procs.Length;
    }

    /** `user_process_find_by_task_id`. */
    method FindByTaskId(id: nat) returns (k: nat)
      ensures k == FindTask(procs[..], id, 0)
    {
      for i := 0 to procs.Length
        invariant FindTask(procs[..], id, 0) == FindTask(procs[..], id, i)
      {
        if procs[i].state != Vacant && procs[i].taskId == id { return i; }
      }
      return procs.Length;
    }

    /** `user_process_alloc`. */
    method Alloc() returns (k: nat)
      modifies procs
      ensures k == FirstVacant(old(procs[..]), 0)
      ensures procs[..] == if k == procs.Length then old(procs[..]) else old(procs[..])[k := NO_PROC.(state := Created)]
    {
      for i := 0 to procs.Length
        invariant procs[..] == old(procs[..]) && FirstVacant(procs[..], 0) == FirstVacant(procs[..], i)
      {
        if procs[i].state == Vacant {
          procs[i] := NO_PROC.(state := Created);
          return i;
        }
      }
      return procs.Length;
    }

    /** `user_process_orphan_children`; the parent's own record is read on every turn. */
    method OrphanChildren(s: nat)
      requires s < procs.Length
      modifies procs
      ensures procs[..] == OrphanFrom(old(procs[..]), s, 0)
      ensures old(procs[s].parent != procs[s].pid) ==> procs[..] == Orphan(old(procs[..]), old(procs[s].pid))
    {
      ghost var was := procs[..];
      for i := 0 to procs.Length
        invariant OrphanFrom(procs[..], s, i) == OrphanFrom(was, s, 0)
      {
        ghost var now := procs[..];
        if procs[i].state != Vacant && procs[i].parent == procs[s].pid {
          procs[i] := procs[i].(parent := 0);
          if procs[i].state == Exited { procs[i] := NO_PROC; }
        }
        assert procs[..] == now[i := OrphanOne(now[i], now[s].pid)];
      }
      OrphanAll(was, s, 0);
    }

    // ------------------------------------------------------------ pages

    /** `user_process_free_pages`. */
    method FreeProcessPages(s: nat)
      requires s < procs.Length
      modifies procs, sched`mem
      ensures sched.mem == FreePages(old(sched.mem), old(procs[s].space), old(procs[s].pages))
      ensures procs[..] == old(procs[..])[s := old(procs[s]).(pages := [])]
    {
      hide Unmap; hide Free;
      ghost var m, q := sched.mem, procs[s];
      for i := 0 to |procs[s].pages|
        invariant procs[..] == old(procs[..])
        invariant FreePages(sched.mem, q.space, q.pages[i..]) == FreePages(m, q.space, q.pages)
      {
        var page := procs[s].pages[i];
        assert q.pages[i..][1..] == q.pages[i + 1..];
        sched.mem := sched.mem.(v := Unmap(sched.mem.v, procs[s].space, page.vpn).0);
        sched.mem := sched.mem.(p := Free(sched.mem.p, page.frame));
      }
      procs[s] := procs[s].(pages := []);
    }

    /** `map_copied_user_page`. */
    method MapCopiedPage(s: nat, x: nat, bytes: Bytes, w: bool) returns (ok: bool)
      requires s < procs.Length
      modifies procs, sched`mem
      ensures var (m, pages, ok') := MapCopied(old(sched.mem), old(procs[s].space), old(procs[s].pages), x, bytes, w);
        ok == ok' && sched.mem == m && procs[..] == old(procs[..])[s := old(procs[s]).(pages := pages)]
    {
      hide Map; hide Filled;
      var q := procs[s];
      assert procs[..] == old(procs[..])[s := q.(pages := q.pages)];
      if |q.pages| >= MAX_PAGES || |bytes| > PAGE_SIZE { return false; }
      AllocDirectEffect(sched.mem.p);
      var (p1, f) := AllocDirect(sched.mem.p);
      if f == 0 { return false; }
      sched.mem := sched.mem.(p := p1, data := sched.mem.data[f := Filled(bytes)]);
      var (p2, v2, mapped) := Map(sched.mem.p, sched.mem.v, q.space, x, f, true, w, true);
      sched.mem := sched.mem.(p := p2, v := v2);
      if !mapped {
        sched.mem := sched.mem.(p := Free(sched.mem.p, f));
        return false;
      }
      procs[s] := q.(pages := q.pages + [Page(x, f)]);
      return true;
    }

    /** `load_emxf`. */
    method LoadEmxf(s: nat, image: Bytes) returns (ok: bool)
      requires s < procs.Length
      modifies procs, sched`mem
      ensures var g, q := ParseImage(image), old(procs[s]);
        if g == None then !ok && sched.mem == old(sched.mem) && procs[..] == old(procs[..])
        else
          var (m, pages, ok') := MapCopied(old(sched.mem), q.space, q.pages, CODE_VPN, g.value.0, false);
          && ok == ok' && sched.mem == m
          && procs[..] == old(procs[..])[s := q.(pages := pages, entry := if ok then CODE_VPN * 4096 + g.value.1 else q.entry)]
    {
      hide MapCopied;
      if |image| < 12 { return false; }
      MagicBytes(image);
      if image[0] != 69 || image[1] != 77 || image[2] != 88 || image[3] != 70 { return false; }
      var codeSize := ReadLe32(image, 4);
      var entry := ReadLe32(image, 8);
      if codeSize > 4096 { return false; }
      if entry >= codeSize { return false; }
      if 12 + codeSize > |image| { return false; }
      ok := MapCopiedPage(s, CODE_VPN, image[12..12 + codeSize], false);
      if ok {
        procs[s] := procs[s].(entry := CODE_VPN * 4096 + entry);
      }
    }

    /** `user_prepare_exec`. */
    method PrepareProcess(s: nat) returns (ok: bool)
      requires s < procs.Length && IsCString(procs[s].path)
      modifies procs, sched`mem
      ensures var q := old(procs[s]);
        var (m, pages, entry, ok') := PrepareExec(archive, old(sched.mem), q.space, q.pages, q.path);
        && ok == ok' && sched.mem == m
        && exists e :: procs[..] == old(procs[..])[s := q.(pages := pages, entry := e)] && (ok ==> e == entry)
    {
      hide MapCopied; hide FreePages; hide ParseImage; hide Locate;
      ghost var was, q := procs[..], procs[s];
      var found := InitramfsFind(archive, procs[s].path);
      if found == None {
        FreeProcessPages(s);
        assert procs[..] == was[s := q.(pages := [], entry := q.entry)];
        return false;
      }
      var image := archive[found.value.0..found.value.0 + found.value.1];
      assert Find(archive, q.path) == Some(image);
      ok := LoadEmxf(s, image);
      if ok {
        ok := MapCopiedPage(s, STACK_VPN, [], true);
      }
      ghost var e := procs[s].entry;
      if !ok {
        FreeProcessPages(s);
      }
      assert procs[..] == was[s := q.(pages := procs[s].pages, entry := e)];
    }

    // ------------------------------------------------------------ process life

    /** `vmm_destroy_address_space` of a record's space. */
    method DestroySpace(s: nat)
      requires s < procs.Length
      modifies sched`mem
      ensures sched.mem == var (p, v) := Destroy(old(sched.mem).p, old(sched.mem).v, procs[s].space);
                           old(sched.mem).(p := p, v := v)
    {
      hide FreeTables;
      if procs[s].space != 0 {
        var (p, v) := Destroy(sched.mem.p, sched.mem.v, procs[s].space);
        sched.mem := sched.mem.(p := p, v := v);
      }
    }

    /** The parent's pid as `user_spawn` records it: 0 for a caller without a record. */
    ghost function CallerPid(me: nat): nat
      requires me <= procs.Length
      reads procs
    {
      if me < procs.Length then procs[me].pid else 0
    }

    /** The part of `user_spawn` that fills a fresh record. */
    method FillRecord(path: Bytes, me: nat) returns (slot: nat)
      requires me <= procs.Length
      modifies procs, this`nextPid
      ensures slot == FirstVacant(old(procs[..]), 0)
      ensures if slot == procs.Length then procs[..] == old(procs[..]) && nextPid == old(nextPid)
              else
                && nextPid == old(nextPid) + 1
                && (old(me < procs.Length ==> procs[me].state != Vacant) ==>
                      procs[..] == old(procs[..])[slot :=
                        Process(Created, old(nextPid), 0, old(CallerPid(me)), 0, 0, 0, path, [])])
    {
      slot := Alloc();
      if slot < procs.Length {
        procs[slot] := procs[slot].(pid := nextPid);
        nextPid := nextPid + 1;
        if me < procs.Length {
          procs[slot] := procs[slot].(parent := procs[me].pid);
        }
        procs[slot] := procs[slot].(path := path);
      }
    }

    /** The part of `user_spawn` that gives the record a space and a task, or undoes it all. */
    method Launch(slot: nat) returns (ok: bool)
      requires slot < procs.Length && procs[slot].space == 0 && sched.Valid()
      requires sched.mem.v.kdir in sched.mem.v.spaces
      modifies sched, sched.tasks, procs
      ensures sched.Valid()
      ensures var s := old(sched.State());
        var (p, v, d) := Create(s.mem.p, s.mem.v);
        var (s2, id) := CreateThread(s.(mem := s.mem.(p := p, v := v)), EnterUser);
        var (p3, v3) := Destroy(s2.mem.p, s2.mem.v, d);
        && ok == (d != 0 && id != None)
        && sched.State() == (if d == 0 then s else if id == None then s2.(mem := s2.mem.(p := p3, v := v3)) else s2)
        && procs[..] == old(procs[..])[slot := if ok then old(procs[slot]).(space := d, taskId := id.value) else NO_PROC]
    {
      hide CreateThread; hide Create; hide Destroy;
      var (p, v, d) := Create(sched.mem.p, sched.mem.v);
      var task := None;
      if d != 0 {
        sched.mem := sched.mem.(p := p, v := v);
        procs[slot] := procs[slot].(space := d);
        task := sched.KthreadCreate(EnterUser);
      }
      if task == None {
        if d != 0 { DestroySpace(slot); }
        procs[slot] := NO_PROC;
        return false;
      }
      procs[slot] := procs[slot].(taskId := task.value);
      return true;
    }

    /** `user_spawn`. */
    method SpawnProcess(ghost b: Boot, path: Bytes) returns (pid: int)
      requires Valid() && b.archive == archive && IsCString(path) && sched.mem.v.kdir in sched.mem.v.spaces
      modifies this, sched, sched.tasks, procs
      ensures Valid() && (State(), pid) == Spawn(b, old(State()), path)
    {
      hide Locate; hide CreateThread; hide Create; hide Destroy; hide Sound;
      if |path| == 0 || |path| >= PATH_SIZE { return -1; }
      var found := InitramfsFind(archive, path);
      if found == None { return -1; }
      var id := sched.CurrentTaskId();
      var me := FindByTaskId(id);
      ghost var parent := CallerPid(me);
      pid := nextPid;
      var slot := FillRecord(path, me);
      if slot == procs.Length { return -1; }
      SoundIs(old(procs[..])[slot], old(nextPid));
      if me < procs.Length { SoundIs(old(procs[..])[me], old(nextPid)); }
      var ok := Launch(slot);
      if !ok {
        assert procs[..] == old(procs[..])[slot := NO_PROC] == old(procs[..]);
        OthersSound(old(procs[..]), procs[..], slot, old(nextPid), nextPid);
        return -1;
      }
      log := log + [Spawned(parent, pid)];
      SoundIs(procs[slot], nextPid);
      assert procs[..] == old(procs[..])[slot := procs[slot]];
      OthersSound(old(procs[..]), procs[..], slot, old(nextPid), nextPid);
    }

    /** `user_exec_task` as the first code of a task, with the `kthread_exit` behind it; false
        is its panic in task 0. */
    method ExecTask(ghost b: Boot) returns (ok: bool)
      requires Valid() && b.archive == archive
      modifies this, sched, sched.tasks, procs
      ensures Valid() && ok == (old(sched.current) != 0)
      ensures ok ==> State() == Exec(b, old(State()))
    {
      hide PrepareExec; hide Destroy; hide FreePages; hide Yield; hide Sound;
      ghost var was := procs[..];
      var id := sched.CurrentTaskId();
      var s := FindByTaskId(id);
      if s == procs.Length {
        ok := sched.KthreadExit();
        return;
      }
      LoadedSound(procs[s], nextPid);
      ok := PrepareProcess(s);
      if ok {
        ok := sched.SetCurrentAddressSpace(procs[s].space);
        if ok {
          procs[s] := procs[s].(state := Active);
          sched.Resume(InUser);
          assert procs[..] == was[s := procs[s]];
          OthersSound(was, procs[..], s, nextPid, nextPid);
          return;
        }
        FreeProcessPages(s);
      }
      DestroySpace(s);
      log := log + [ExecFailed(procs[s].pid)];
      procs[s] := NO_PROC;
      assert procs[..] == was[s := NO_PROC];
      SoundIs(NO_PROC, nextPid);
      OthersSound(was, procs[..], s, nextPid, nextPid);
      ok := sched.KthreadExit();
    }

    /** `user_exit_current`. */
    method ExitCurrent(status: Word32)
      requires Valid()
      modifies this`log, sched`mem, procs
      ensures Valid()
      ensures var k := old(State());
        var s := FindTask(k.procs, Current(k).id, 0);
        if s == |k.procs| then State() == k
        else
          var q := k.procs[s];
          State() == k.(sys := k.sys.(mem := FreePages(k.sys.mem, q.space, q.pages)),
                        procs := Retire(k.procs, s, status), log := k.log + [DidExit(q.pid, status)])
    {
      hide FreePages; hide Sound;
      ghost var was := procs[..];
      var id := sched.CurrentTaskId();
      var s := FindByTaskId(id);
      if s == procs.Length { return; }
      YoungerThanParent(procs[s], nextPid);
      procs[s] := procs[s].(status := status, state := Exited);
      FreeProcessPages(s);
      procs[s] := procs[s].(space := 0);
      ghost var q := was[s].(status := status, state := Exited, pages := [], space := 0);
      assert procs[..] == was[s := q];
      OrphanChildren(s);
      var parent := FindByPid(procs[s].parent);
      if parent == procs.Length { procs[s] := NO_PROC; }
      log := log + [DidExit(was[s].pid, status)];
      RetireSound(was, s, status, nextPid);
      assert procs[..] == Retire(was, s, status);
    }

    /** `sys_exit`; false is the panic of task 0. */
    method SysExit(status: Word32) returns (ok: bool)
      requires Valid()
      modifies this`log, sched, sched.tasks, procs
      ensures Valid() && ok == (old(sched.current) != 0)
      ensures ok ==> State() == Exit(old(State()), status)
    {
      hide FreePages; hide Sound; hide Retire; hide Yield;
      ExitCurrent(status);
      ok := sched.KthreadExit();
    }

    /** `user_wait` up to its loop: false for a caller without a record. */
    method WaitStart(pid: nat) returns (slot: nat)
      requires Valid()
      modifies sched.tasks
      ensures Valid() && State() == Wait(old(State()), pid)
      ensures slot == FindTask(procs[..], Current(old(State())).id, 0)
    {
      var id := sched.CurrentTaskId();
      slot := FindByTaskId(id);
      if slot < procs.Length { sched.Resume(InWait(pid, slot)); }
    }

    /** One turn of the loop of `user_wait`: the result as `sys_wait` passes it on when it
        returns, nothing when it yields. */
    method WaitTurn(pid: nat, slot: nat) returns (r: Option<Word32>)
      requires Valid() && slot < procs.Length
      modifies this`log, sched, sched.tasks, procs
      ensures Valid() && State() == Poll(old(State()), pid, slot)
      ensures r == Answer(old(State()), pid, slot)
    {
      hide Yield; hide Sound;
      ghost var was := procs[..];
      var c := FindByPid(pid);
      if c == procs.Length || procs[c].parent != procs[slot].pid {
        sched.Resume(InUser);
        log := log + [WaitFailed(procs[slot].pid, pid)];
        return Some(SYS_ERR);
      }
      if procs[c].state == Exited {
        var status := procs[c].status;
        log := log + [Collected(procs[slot].pid, pid, status)];
        procs[c] := NO_PROC;
        sched.Resume(InUser);
        SoundIs(NO_PROC, nextPid);
        OthersSound(was, procs[..], c, nextPid, nextPid);
        return Some(status);
      }
      sched.SchedYield();
      return None;
    }
  }

  /** Reading a C string of less than `max` bytes, or its first `max` bytes, stays inside `src`. */
  predicate Readable(src: Bytes, max: nat) { max <= |src| || exists n :: 0 <= n < |src| && src[n] == 0 }

  /** `copy_string_from_user` of user bytes `src`.  It succeeds exactly when the string is neither
      empty nor too long for the buffer, and then the buffer holds it with its NUL; the rest of
      the buffer is left alone. */
  method CopyStringFromUser(dst: array<Byte>, src: Bytes) returns (ok: bool)
    requires Readable(src, dst.Length)
    modifies dst
    ensures ok <==> 0 < StringLength(src, dst.Length, 0) < dst.Length
    ensures ok ==> var n := StringLength(src, dst.Length, 0); dst[..] == src[..n + 1] + old(dst[..])[n + 1..]
    ensures !ok && dst.Length > 0 ==> exists i :: 0 <= i < dst.Length && dst[i] == 0
  {
    if dst.Length == 0 { return false; }
    for i := 0 to dst.Length
      invariant i <= |src| && forall k :: 0 <= k < i ==> dst[k] == src[k] && src[k] != 0
      invariant forall k :: i <= k < dst.Length ==> dst[k] == old(dst[k])
      invariant StringLength(src, dst.Length, 0) == StringLength(src, dst.Length, i)
    {
      dst[i] := src[i];
      if dst[i] == 0 {
        if i == 0 { return false; }
        return true;
      }
    }
    dst[dst.Length - 1] := 0;
    return false;
  }

  /** Length of the C string at the start of `src`, looking at `max` bytes; `max` if there is
      no NUL among them. */
  function StringLength(src: Bytes, max: nat, i: nat): (n: nat)
    requires i <= max && Readable(src, max) && i <= |src| && forall k :: 0 <= k < i ==> src[k] != 0
    ensures i <= n <= max && (n < max ==> n < |src| && src[n] == 0) && n <= |src| && forall k :: 0 <= k < n ==> src[k] != 0
    decreases max - i
  {
    if i == max || src[i] == 0 then i else StringLength(src, max, i + 1)
  }

  lemma LoadedSound(q: Process, n: nat)
    requires Sound(q, n) && q.state != Vacant
    ensures IsCString(q.path)
    ensures forall e, pages :: Sound(q.(state := Active, pages := pages, entry := e), n)
  {
  }

  lemma YoungerThanParent(q: Process, n: nat)
    requires Sound(q, n) && q.state != Vacant
    ensures q.parent != q.pid
  {
  }

  lemma RetireSound(procs: seq<Process>, s: nat, status: Word32, n: nat)
    requires s < |procs| && procs[s].state != Vacant && forall i :: 0 <= i < |procs| ==> Sound(procs[i], n)
    ensures forall i :: 0 <= i < |procs| ==> Sound(Retire(procs, s, status)[i], n)
  {
    var q := procs[s];
    var r := procs[s := q.(state := Exited, status := status, pages := [], space := 0)];
    forall i | 0 <= i < |procs| ensures Sound(OrphanOne(r[i], q.pid), n) {
      assert Sound(procs[i], n);
    }
  }

  lemma SoundIs(q: Process, n: nat)
    ensures q.state == Vacant && Sound(q, n) ==> q == NO_PROC
    ensures q.state != Vacant && Sound(q, n) ==> q.pid < n
    ensures Sound(NO_PROC, n)
    ensures IsCString(q.path) && q.state == Created && q.parent < q.pid < n ==> Sound(q, n)
  {
  }

  lemma OthersSound(was: seq<Process>, now: seq<Process>, slot: nat, n: nat, n': nat)
    requires slot < |was| && n <= n' && (forall i :: 0 <= i < |was| ==> Sound(was[i], n))
    requires |now| == |was| && now == was[slot := now[slot]] && Sound(now[slot], n')
    ensures forall i :: 0 <= i < |now| ==> Sound(now[i], n')
  {
    forall i | 0 <= i < |now| ensures Sound(now[i], n') {
      assert i != slot ==> now[i] == was[i] && Sound(was[i], n);
    }
  }

  lemma MagicBytes(image: Bytes)
    requires |image| >= 12
    ensures image[..4] == IMAGE_MAGIC <==> image[0] == 69 && image[1] == 77 && image[2] == 88 && image[3] == 70
  {
    if image[0] == 69 && image[1] == 77 && image[2] == 88 && image[3] == 70 {
      assert image[..4] == [image[0], image[1], image[2], image[3]];
    } else {
      assert image[..4][0] == image[0] && image[..4][1] == image[1] && image[..4][2] == image[2] && image[..4][3] == image[3];
    }
  }
}
