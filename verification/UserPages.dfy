/**
 * Physical memory as the process code sees it: allocator, page tables and the contents of
 * user pages, with the two compound operations of `kernel/user.c` that move frames between
 * the allocator and an address space.
 */
module UserPages {
  import opened Common
  import opened PmmSpec
  import opened VmSpec
  import opened Owners
  import opened Archive

  const MAX_PAGES: nat := 16

  datatype Page = Page(vpn: nat, frame: nat)

  /** `data` holds the bytes of user pages, by frame. */
  datatype Mem = Mem(p: Pmm, v: Vm, data: map<nat, Bytes>)

  ghost predicate MemInv(m: Mem, c: Claims)
  {
    VmInv(m.v) && Partition(m.p, c, m.v)
  }

  /** A page filled with zeros, the source bytes copied over its start. */
  function Filled(bytes: Bytes): (b: Bytes)
    requires |bytes| <= PAGE_SIZE
    ensures |b| == PAGE_SIZE && b[..|bytes|] == bytes
  {
    bytes + Zeros(PAGE_SIZE - |bytes|)
  }

  /** `map_copied_user_page`, which fills the frame before it maps it; the page table entry is present and user-accessible. */
  function MapCopied(m: Mem, d: nat, pages: seq<Page>, x: nat, bytes: Bytes, w: bool): (Mem, seq<Page>, bool)
  {
    if |pages| >= MAX_PAGES || |bytes| > PAGE_SIZE then (m, pages, false)
    else
      var (p1, f) := AllocDirect(m.p);
      if f == 0 then (m, pages, false)
      else
        var (p2, v2, ok) := Map(p1, m.v, d, x, f, true, w, true);
        var data := m.data[f := Filled(bytes)];
        if !ok then (Mem(Free(p2, f), v2, data), pages, false)
        else (Mem(p2, v2, data), pages + [Page(x, f)], true)
  }

  /** `user_process_free_pages`: unmap and free, in list order. */
  function FreePages(m: Mem, d: nat, pages: seq<Page>): Mem
    decreases |pages|
  {
    if pages == [] then m
    else FreePages(m.(v := Unmap(m.v, d, pages[0].vpn).0, p := Free(m.p, pages[0].frame)), d, pages[1..])
  }

  /** The record's page list is exactly the list of pages mapped in its space. */
  ghost predicate PagesMatch(leaves: map<nat, Mapping>, pages: seq<Page>)
  {
    && (forall i :: 0 <= i < |pages| ==> pages[i].vpn in leaves && leaves[pages[i].vpn].frame == pages[i].frame)
    && (forall i, j :: 0 <= i < j < |pages| ==> pages[i].vpn != pages[j].vpn)
    && (forall x :: x in leaves ==> exists i :: 0 <= i < |pages| && pages[i].vpn == x)
  }

  /** The kernel half of the directory is the same. */
  ghost predicate TopSame(s: Space, s': Space)
  {
    forall i :: i >= KERNEL_PDE ==>
      (i in s'.tables <==> i in s.tables) && (i in s.tables ==> s'.tables[i] == s.tables[i])
  }

  /** The space after one more page, except for its user-half directory entries. */
  ghost predicate Extended(s: Space, s': Space, x: nat, l: Mapping)
  {
    x !in s.leaves && s'.leaves == s.leaves[x := l] && TopSame(s, s')
  }

  /** Only the user half of space `d` changed, and only bytes of frames that were free. */
  ghost predicate SpaceOnly(m: Mem, m': Mem, d: nat)
  {
    && d in m.v.spaces && m'.v.kdir == m.v.kdir && m'.v.cr3 == m.v.cr3
    && m'.v.spaces.Keys == m.v.spaces.Keys
    && (forall d2 :: d2 in m.v.spaces && d2 != d ==> m'.v.spaces[d2] == m.v.spaces[d2])
    && TopSame(m.v.spaces[d], m'.v.spaces[d])
    && (forall f :: f in m.p.used && f in m.data ==> f in m'.data && m'.data[f] == m.data[f])
  }

  /** Nothing but bytes of frames that are free changed. */
  ghost predicate FreeBytesOnly(m: Mem, m': Mem)
  {
    && m'.p == m.p && m'.v == m.v
    && forall f :: f in m.p.used ==> (f in m'.data <==> f in m.data) && (f in m.data ==> m'.data[f] == m.data[f])
  }

  lemma MapCopiedFails(m: Mem, c: Claims, d: nat, pages: seq<Page>, x: nat, bytes: Bytes, w: bool)
    requires Partition(m.p, c, m.v)
    ensures var (m', pages', ok) := MapCopied(m, d, pages, x, bytes, w);
      !ok ==> FreeBytesOnly(m, m') && pages' == pages
  {
    AllocDirectEffect(m.p);
    var (p1, f) := AllocDirect(m.p);
    if f != 0 {
      assert m.p.used + {f} - {f} == m.p.used;
    }
  }

  lemma MapShape(p: Pmm, v: Vm, d: nat, x: nat, f: nat, w: bool)
    requires Map(p, v, d, x, f, true, w, true).2 && d != v.kdir
    ensures d in v.spaces
    ensures var (p', v', ok) := Map(p, v, d, x, f, true, w, true);
      && p.used <= p'.used && v'.kdir == v.kdir && v'.cr3 == v.cr3 && v'.spaces.Keys == v.spaces.Keys
      && (forall d2 :: d2 in v.spaces && d2 != d ==> v'.spaces[d2] == v.spaces[d2])
      && Extended(v.spaces[d], v'.spaces[d], x, Mapping(f, w, true))
  {
    AllocDirectEffect(p);
  }

  lemma MapCopiedInv(m: Mem, c: Claims, d: nat, pages: seq<Page>, x: nat, bytes: Bytes, w: bool)
    requires MemInv(m, c) && d in m.v.spaces && d != m.v.kdir && x < VPAGES
    requires MapCopied(m, d, pages, x, bytes, w).2
    ensures MemInv(MapCopied(m, d, pages, x, bytes, w).0, c)
  {
    HoldFresh(m.p, c, m.v);
    var (p1, f) := AllocDirect(m.p);
    MapPartition(p1, c.(held := c.held + {f}), m.v, d, x, f, w, true);
    MapKeepsInv(p1, m.v, d, x, f, true, w, true);
    assert c.held + {f} - {f} == c.held;
  }

  /** One more user page: a frame nobody had, zero-filled beyond the copied bytes, mapped with
      the asked rights; every other space keeps its page tables, every other frame its bytes.
      A failed call changes nothing but bytes of a frame that is free again. */
  lemma MapCopiedEffect(m: Mem, c: Claims, d: nat, pages: seq<Page>, x: nat, bytes: Bytes, w: bool)
    requires MemInv(m, c) && d in m.v.spaces && d != m.v.kdir && x < VPAGES
    ensures var (m', pages', ok) := MapCopied(m, d, pages, x, bytes, w);
      && MemInv(m', c)
      && (!ok ==> FreeBytesOnly(m, m') && pages' == pages)
      && (ok ==>
            var f := AllocDirect(m.p).1;
            && |bytes| <= PAGE_SIZE && f !in m.p.used && f != 0
            && m.p.used <= m'.p.used && f in m'.p.used
            && SpaceOnly(m, m', d)
            && Extended(m.v.spaces[d], m'.v.spaces[d], x, Mapping(f, w, true))
            && m'.data == m.data[f := Filled(bytes)]
            && pages' == pages + [Page(x, f)])
  {
    MapCopiedFails(m, c, d, pages, x, bytes, w);
    AllocDirectEffect(m.p);
    if MapCopied(m, d, pages, x, bytes, w).2 {
      var (p1, f) := AllocDirect(m.p);
      MapShape(p1, m.v, d, x, f, w);
      MapCopiedInv(m, c, d, pages, x, bytes, w);
    }
  }

  lemma PagesMatchExtend(s: Space, s': Space, pages: seq<Page>, x: nat, l: Mapping)
    requires PagesMatch(s.leaves, pages) && Extended(s, s', x, l)
    ensures PagesMatch(s'.leaves, pages + [Page(x, l.frame)])
  {
    var pages' := pages + [Page(x, l.frame)];
    forall y | y in s'.leaves ensures exists i :: 0 <= i < |pages'| && pages'[i].vpn == y {
      if y == x {
        assert pages'[|pages|].vpn == y;
      } else {
        var i :| 0 <= i < |pages| && pages[i].vpn == y;
        assert pages'[i].vpn == y;
      }
    }
  }

  lemma PagesMatchDrop(leaves: map<nat, Mapping>, pages: seq<Page>)
    requires PagesMatch(leaves, pages) && pages != []
    ensures PagesMatch(leaves - {pages[0].vpn}, pages[1..])
  {
    var rest := pages[1..];
    forall y | y in leaves - {pages[0].vpn} ensures exists i :: 0 <= i < |rest| && rest[i].vpn == y {
      var i :| 0 <= i < |pages| && pages[i].vpn == y;
      assert rest[i - 1].vpn == y;
    }
  }

  /** One unmap-and-free step keeps every frame owned once. */
  lemma FreeOnePage(m: Mem, c: Claims, d: nat, x: nat)
    requires MemInv(m, c) && d in m.v.spaces && d != m.v.kdir && x in m.v.spaces[d].leaves
    ensures var s := m.v.spaces[d];
      var m' := m.(v := Unmap(m.v, d, x).0, p := Free(m.p, s.leaves[x].frame));
      MemInv(m', c) && OnlyLeaves(m.v, m'.v, d, s.leaves - {x})
  {
    var f := m.v.spaces[d].leaves[x].frame;
    assert SpaceOk(m.v, d);
    UnmapKeepsInv(m.v, d, x);
    UnmapPartition(m.p, c, m.v, d, x);
    FreeHeld(m.p, c.(held := c.held + {f}), Unmap(m.v, d, x).0, f);
    assert c.held + {f} - {f} == c.held;
  }

  /** `v'` differs from `v` only in the pages of `d` and in the TLB. */
  ghost predicate OnlyLeaves(v: Vm, v': Vm, d: nat, leaves: map<nat, Mapping>)
    requires d in v.spaces
  {
    && v'.kdir == v.kdir && v'.cr3 == v.cr3
    && v'.spaces == v.spaces[d := v.spaces[d].(leaves := leaves)]
  }

  lemma OnlyLeavesTwice(v: Vm, v1: Vm, v2: Vm, d: nat, l1: map<nat, Mapping>, l2: map<nat, Mapping>)
    requires d in v.spaces && OnlyLeaves(v, v1, d, l1) && OnlyLeaves(v1, v2, d, l2)
    ensures OnlyLeaves(v, v2, d, l2)
  {
  }

  /** Freeing a record's pages empties its space and nothing else; no frame is freed twice. */
  lemma {:induction false} FreePagesEffect(m: Mem, c: Claims, d: nat, pages: seq<Page>)
    requires MemInv(m, c) && d in m.v.spaces && d != m.v.kdir
    requires PagesMatch(m.v.spaces[d].leaves, pages)
    ensures var m' := FreePages(m, d, pages);
      MemInv(m', c) && m'.data == m.data && OnlyLeaves(m.v, m'.v, d, map[])
    decreases |pages|
  {
    if pages == [] {
      assert m.v.spaces[d].leaves == map[];
    } else {
      var x := pages[0].vpn;
      var m1 := m.(v := Unmap(m.v, d, x).0, p := Free(m.p, pages[0].frame));
      FreeOnePage(m, c, d, x);
      PagesMatchDrop(m.v.spaces[d].leaves, pages);
      FreePagesEffect(m1, c, d, pages[1..]);
      OnlyLeavesTwice(m.v, m1.v, FreePages(m1, d, pages[1..]).v, d, m.v.spaces[d].leaves - {x}, map[]);
    }
  }
}
