/** Loading a program into an address space. */
module ExecProofs {
  import opened Common
  import opened Archive
  import opened PmmSpec
  import opened VmSpec
  import opened Owners
  import opened UserPages
  import opened Machine
  import opened ProcInv

  lemma SpaceOnlyCompose(m: Mem, m1: Mem, m2: Mem, d: nat)
    requires SpaceOnly(m, m1, d) && SpaceOnly(m1, m2, d) && m.p.used <= m1.p.used
    ensures SpaceOnly(m, m2, d)
  {
  }

  lemma FreePagesOnly(m: Mem, c: Claims, d: nat, pages: seq<Page>)
    requires MemInv(m, c) && d in m.v.spaces && d != m.v.kdir
    requires PagesMatch(m.v.spaces[d].leaves, pages)
    ensures var m' := FreePages(m, d, pages);
      && MemInv(m', c) && SpaceOnly(m, m', d) && m'.data == m.data
      && m'.v.spaces[d].leaves == map[]
  {
    FreePagesEffect(m, c, d, pages);
  }

  lemma SpaceOnlySame(m: Mem, m': Mem, d: nat)
    requires d in m.v.spaces && (m' == m || FreeBytesOnly(m, m'))
    ensures SpaceOnly(m, m', d) && m'.v == m.v && m'.p == m.p
  {
  }

  lemma NoPagesFreed(m: Mem, d: nat)
    ensures FreePages(m, d, []) == m
  {
  }

  /** The record a successful load leads to. */
  function LoadedRecord(d: nat, path: Bytes, pages: seq<Page>, entry: nat): Process
  {
    Process(Active, 0, 0, 0, d, entry, 0, path, pages)
  }

  /** Code page mapped: what is true before the stack page. */
  ghost predicate CodeLoaded(m: Mem, m1: Mem, d: nat, pages1: seq<Page>, code: Bytes)
  {
    && SpaceOnly(m, m1, d) && m.p.used <= m1.p.used
    && |code| <= PAGE_SIZE && |pages1| == 1 && pages1[0].vpn == CODE_VPN
    && m1.v.spaces[d].leaves == map[CODE_VPN := Mapping(pages1[0].frame, false, true)]
    && pages1[0].frame in m1.p.used
    && pages1[0].frame in m1.data && m1.data[pages1[0].frame] == Filled(code)
    && PagesMatch(m1.v.spaces[d].leaves, pages1)
  }

  lemma CodeAdded(m: Mem, m1: Mem, d: nat, code: Bytes, f: nat)
    requires d in m.v.spaces && m.v.spaces[d].leaves == map[] && |code| <= PAGE_SIZE
    requires SpaceOnly(m, m1, d) && m.p.used <= m1.p.used && f in m1.p.used
    requires Extended(m.v.spaces[d], m1.v.spaces[d], CODE_VPN, Mapping(f, false, true))
    requires m1.data == m.data[f := Filled(code)]
    ensures CodeLoaded(m, m1, d, [Page(CODE_VPN, f)], code)
  {
    var pages1 := [Page(CODE_VPN, f)];
    assert pages1[0].vpn == CODE_VPN;
  }

  lemma CodeIs(m: Mem, m1: Mem, d: nat, pages1: seq<Page>, code: Bytes)
    requires CodeLoaded(m, m1, d, pages1, code)
    ensures SpaceOnly(m, m1, d) && m.p.used <= m1.p.used && m1.v.kdir == m.v.kdir && d in m1.v.spaces
    ensures PagesMatch(m1.v.spaces[d].leaves, pages1)
  {
  }

  lemma LoadCode(m: Mem, c: Claims, d: nat, code: Bytes)
    requires MemInv(m, c) && d in m.v.spaces && d != m.v.kdir && m.v.spaces[d].leaves == map[]
    ensures var (m1, pages1, ok) := MapCopied(m, d, [], CODE_VPN, code, false);
      MemInv(m1, c) && (if ok then CodeLoaded(m, m1, d, pages1, code) else FreeBytesOnly(m, m1) && pages1 == [])
  {
    MapCopiedEffect(m, c, d, [], CODE_VPN, code, false);
    var (m1, pages1, ok) := MapCopied(m, d, [], CODE_VPN, code, false);
    if ok {
      var f := AllocDirect(m.p).1;
      CodeAdded(m, m1, d, code, f);
      assert [] + [Page(CODE_VPN, f)] == [Page(CODE_VPN, f)];
    }
  }

  lemma StackAdded(archive: Bytes, path: Bytes, m: Mem, m1: Mem, m2: Mem, d: nat, pages1: seq<Page>, f: nat)
    requires Program(archive, path).Some?
    requires CodeLoaded(m, m1, d, pages1, Program(archive, path).value.0)
    requires SpaceOnly(m1, m2, d) && f !in m1.p.used
    requires Extended(m1.v.spaces[d], m2.v.spaces[d], STACK_VPN, Mapping(f, true, true))
    requires m2.data == m1.data[f := Filled([])]
    ensures var pages2 := pages1 + [Page(STACK_VPN, f)];
      && PagesMatch(m2.v.spaces[d].leaves, pages2)
      && TextOk(archive, LoadedRecord(d, path, pages2, CODE_VPN * 4096 + Program(archive, path).value.1), m2.v, m2.data)
  {
    PagesMatchExtend(m1.v.spaces[d], m2.v.spaces[d], pages1, STACK_VPN, Mapping(f, true, true));
  }

  lemma LoadStack(archive: Bytes, path: Bytes, m: Mem, m1: Mem, c: Claims, d: nat, pages1: seq<Page>)
    requires Program(archive, path).Some? && d != m1.v.kdir && d in m1.v.spaces
    requires MemInv(m1, c) && CodeLoaded(m, m1, d, pages1, Program(archive, path).value.0)
    ensures var (m2, pages2, ok) := MapCopied(m1, d, pages1, STACK_VPN, [], true);
      && MemInv(m2, c)
      && (!ok ==> FreeBytesOnly(m1, m2) && pages2 == pages1)
      && (ok ==>
            && SpaceOnly(m, m2, d) && PagesMatch(m2.v.spaces[d].leaves, pages2)
            && TextOk(archive, LoadedRecord(d, path, pages2, CODE_VPN * 4096 + Program(archive, path).value.1), m2.v, m2.data))
  {
    MapCopiedEffect(m1, c, d, pages1, STACK_VPN, [], true);
    var (m2, pages2, ok) := MapCopied(m1, d, pages1, STACK_VPN, [], true);
    if ok {
      SpaceOnlyCompose(m, m1, m2, d);
      StackAdded(archive, path, m, m1, m2, d, pages1, AllocDirect(m1.p).1);
    }
  }

  /** `user_prepare_exec` touches only the user half of the given space.  On success the space
      holds exactly the program of that path, read-only, and a writable stack; on failure it
      is empty again. */
  lemma PrepareExecEffect(archive: Bytes, m: Mem, c: Claims, d: nat, path: Bytes)
    requires MemInv(m, c) && d in m.v.spaces && d != m.v.kdir && m.v.spaces[d].leaves == map[]
    ensures var (m', pages, entry, ok) := PrepareExec(archive, m, d, [], path);
      && MemInv(m', c) && SpaceOnly(m, m', d)
      && (!ok ==> m'.v.spaces[d].leaves == map[])
      && (ok ==> PagesMatch(m'.v.spaces[d].leaves, pages)
                 && TextOk(archive, LoadedRecord(d, path, pages, entry), m'.v, m'.data))
  {
    hide FreePages; hide MapCopied; hide MemInv; hide TextOk; hide SpaceOnly; hide FreeBytesOnly; hide Program;
    hide PagesMatch;
    SpaceOnlySame(m, m, d);
    var g := Program(archive, path);
    NoPagesFreed(m, d);
    if g.Some? {
      LoadCode(m, c, d, g.value.0);
      var (m1, pages1, ok1) := MapCopied(m, d, [], CODE_VPN, g.value.0, false);
      NoPagesFreed(m1, d);
      if !ok1 { SpaceOnlySame(m, m1, d); }
      if ok1 {
        CodeIs(m, m1, d, pages1, g.value.0);
        LoadStack(archive, path, m, m1, c, d, pages1);
        var (m2, pages2, ok2) := MapCopied(m1, d, pages1, STACK_VPN, [], true);
        if !ok2 {
          SpaceOnlySame(m1, m2, d);
          SpaceOnlyCompose(m, m1, m2, d);
          FreePagesOnly(m2, c, d, pages1);
          SpaceOnlyCompose(m, m2, FreePages(m2, d, pages1), d);
        }
      }
    }
  }
}
