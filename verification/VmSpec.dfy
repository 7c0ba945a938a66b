/**
 * Two-level page tables, decoded.  An address space is named by the frame of its directory.
 * Virtual pages are numbered 0 .. 2^20 - 1; page `vpn` is reached through directory entry
 * `vpn / 1024`.  `VmmImpl.Paging` refines these functions down to directory and table words.
 */
module VmSpec {
  import opened Common
  import opened PmmSpec

  /** A decoded present entry (directory, table or TLB): frame, and the W and U bits. */
  datatype Mapping = Mapping(frame: nat, writable: bool, user: bool)

  /** `tables`: present directory entries.  `leaves`: present entries of the tables the
      space owns, by virtual page. */
  datatype Space = Space(tables: map<nat, Mapping>, leaves: map<nat, Mapping>)

  /** `badDestroy` latches the destruction of something that is not a live directory. */
  datatype Vm = Vm(kdir: nat, spaces: map<nat, Space>, cr3: nat, tlb: map<nat, Mapping>,
                   badDestroy: bool)

  const VPAGES: nat := 1024 * 1024
  const BASE_VPN: nat := KERNEL_PDE * ENTRIES

  // ---------------------------------------------------------------- translation

  /** Tables of the kernel half belong to the kernel directory; user directories copy them. */
  predicate Own(v: Vm, d: nat, i: nat) { i < KERNEL_PDE || d == v.kdir }

  function LeavesOf(v: Vm, d: nat, i: nat): map<nat, Mapping>
    requires d in v.spaces && v.kdir in v.spaces
  {
    if Own(v, d, i) then v.spaces[d].leaves else v.spaces[v.kdir].leaves
  }

  /** What the MMU computes: both levels must be present, and a right needs both levels. */
  function Lookup(v: Vm, d: nat, vpn: nat): Option<Mapping>
    requires v.kdir in v.spaces
  {
    var i := vpn / ENTRIES;
    if d in v.spaces && i in v.spaces[d].tables && vpn in LeavesOf(v, d, i) then
      var t := v.spaces[d].tables[i];
      var l := LeavesOf(v, d, i)[vpn];
      Some(Mapping(l.frame, l.writable && t.writable, l.user && t.user))
    else None
  }

  predicate Narrower(a: Mapping, b: Mapping)
  {
    (a.writable ==> b.writable) && (a.user ==> b.user)
  }

  ghost predicate SpaceOk(v: Vm, d: nat)
    requires d in v.spaces && v.kdir in v.spaces
  {
    var s := v.spaces[d];
    && (forall i :: i in s.tables ==> i < ENTRIES)
    && (forall x :: x in s.leaves ==>
          && x / ENTRIES in s.tables && Own(v, d, x / ENTRIES)
          && Narrower(s.leaves[x], s.tables[x / ENTRIES]))
    && (forall i :: i in s.tables && !Own(v, d, i) ==>
          && i in v.spaces[v.kdir].tables
          && s.tables[i].frame == v.spaces[v.kdir].tables[i].frame
          && Narrower(s.tables[i], v.spaces[v.kdir].tables[i]))
  }

  ghost predicate TlbOk(v: Vm)
    requires v.kdir in v.spaces
  {
    forall x :: x in v.tlb ==> Lookup(v, v.cr3, x) == Some(v.tlb[x])
  }

  ghost predicate VmInv(v: Vm)
  {
    && v.kdir in v.spaces && v.cr3 in v.spaces
    && (forall d :: d in v.spaces ==> SpaceOk(v, d))
    && TlbOk(v)
    && !v.badDestroy
  }

  /** The virtual page of the direct map that shows frame `f`. */
  function DirectPage(f: nat): nat { BASE_VPN + f }

  /** Every physical page below the limit is reached at base + its number, kernel-only. */
  ghost predicate DirectMapped(v: Vm, d: nat)
    requires v.kdir in v.spaces
  {
    forall f: nat :: f < DIRECT_PAGES ==> Lookup(v, d, DirectPage(f)) == Some(Mapping(f, true, false))
  }

  // ---------------------------------------------------------------- operations

  /** `paging_load_directory`: a CR3 load flushes the TLB. */
  function Load(v: Vm, d: nat): Vm { v.(cr3 := d, tlb := map[]) }

  /** The processor may cache the translation of any page at any time. */
  function Fill(v: Vm, x: nat): Vm
    requires v.kdir in v.spaces
  {
    var t := Lookup(v, v.cr3, x);
    if t.Some? then v.(tlb := v.tlb[x := t.value]) else v
  }

  function HighTables(v: Vm): map<nat, Mapping>
    requires v.kdir in v.spaces
  {
    map i | i in v.spaces[v.kdir].tables && i >= KERNEL_PDE :: v.spaces[v.kdir].tables[i]
  }

  /** `vmm_create_address_space`: returns 0 on exhaustion. */
  function Create(p: Pmm, v: Vm): (Pmm, Vm, nat)
    requires v.kdir in v.spaces
  {
    var (p', d) := AllocDirect(p);
    if d == 0 then (p, v, 0)
    else (p', v.(spaces := v.spaces[d := Space(HighTables(v), map[])]), d)
  }

  /** Frees the tables behind directory entries `i ..` of the user half. */
  function FreeTables(p: Pmm, s: Space, i: nat): Pmm
    decreases KERNEL_PDE - i
  {
    if i >= KERNEL_PDE then p
    else FreeTables(if i in s.tables then Free(p, s.tables[i].frame) else p, s, i + 1)
  }

  /** `vmm_destroy_address_space`: 0 and the kernel directory are left alone. */
  function Destroy(p: Pmm, v: Vm, d: nat): (Pmm, Vm)
  {
    if d == 0 || d == v.kdir then (p, v)
    else if d !in v.spaces then (p, v.(badDestroy := true))
    else (Free(FreeTables(p, v.spaces[d], 0), d), v.(spaces := v.spaces - {d}))
  }

  /** `vmm_map_page_in` on page-aligned arguments.  `present` is the PRESENT bit of the flags
      the caller passes: without it a non-present entry is written and the call succeeds. */
  function Map(p: Pmm, v: Vm, d: nat, x: nat, f: nat, present: bool, w: bool, u: bool): (Pmm, Vm, bool)
  {
    var i := x / ENTRIES;
    if d !in v.spaces || !Own(v, d, i) then (p, v, false)
    else
      var s := v.spaces[d];
      var (p', t) := if i in s.tables then (p, s.tables[i])
                     else var (q, g) := AllocDirect(p); (q, Mapping(g, false, false));
      if i !in s.tables && t.frame == 0 then (p, v, false)
      else if x in s.leaves then (p, v, false)
      else
        var s' := Space(s.tables[i := t.(writable := t.writable || w, user := t.user || u)],
                        if present then s.leaves[x := Mapping(f, w, u)] else s.leaves);
        (p', v.(spaces := v.spaces[d := s'], tlb := v.tlb - {x}), true)
  }

  /** `vmm_unmap_page_in` on a page-aligned address. */
  function Unmap(v: Vm, d: nat, x: nat): (Vm, bool)
  {
    var i := x / ENTRIES;
    if d !in v.spaces || !Own(v, d, i) then (v, false)
    else
      var s := v.spaces[d];
      if i !in s.tables || x !in s.leaves then (v, false)
      else (v.(spaces := v.spaces[d := s.(leaves := s.leaves - {x})], tlb := v.tlb - {x}), true)
  }

  // ---------------------------------------------------------------- rights

  /** Section 4.6 of the Intel SDM Volume 3A: a right needs both levels.  In the tables a
      space owns the two levels always combine to the bits the page was mapped with. */
  lemma RightsExact(v: Vm, d: nat, x: nat)
    requires VmInv(v) && d in v.spaces && x in v.spaces[d].leaves
    ensures Lookup(v, d, x) == Some(v.spaces[d].leaves[x])
  {
    assert SpaceOk(v, d);
  }

  /** A kernel-half page is seen through a user directory as it was mapped if and only if its
      directory entry existed when the directory was created and carried those rights then. */
  lemma SharedRightsExactIff(v: Vm, d: nat, x: nat)
    requires VmInv(v) && d in v.spaces && d != v.kdir && x / ENTRIES >= KERNEL_PDE
    requires x in v.spaces[v.kdir].leaves
    ensures Lookup(v, d, x) == Some(v.spaces[v.kdir].leaves[x]) <==>
            x / ENTRIES in v.spaces[d].tables && Narrower(v.spaces[v.kdir].leaves[x], v.spaces[d].tables[x / ENTRIES])
  {
    assert SpaceOk(v, d);
  }

  // ---------------------------------------------------------------- map

  /** `d2` uses the table that holds page `x` of directory `d`. */
  predicate Shares(v: Vm, d: nat, d2: nat, x: nat)
  {
    && d2 in v.spaces
    && (d2 == d || (d == v.kdir && x / ENTRIES >= KERNEL_PDE && x / ENTRIES in v.spaces[d2].tables))
  }

  /** What a `Map` leaves in the translation of page `x` of `d2`. */
  function Mapped(v: Vm, d: nat, d2: nat, x: nat, f: nat, w: bool, u: bool): Mapping
    requires Shares(v, d, d2, x) && (d2 != d ==> x / ENTRIES in v.spaces[d2].tables)
  {
    if d2 == d then Mapping(f, w, u)
    else
      var t := v.spaces[d2].tables[x / ENTRIES];
      Mapping(f, w && t.writable, u && t.user)
  }

  /** A failed `Map` changes nothing.  A successful one with PRESENT adds exactly the
      translation of `x`, with the given rights, in `d` and in the directories sharing that
      table; every other translation of every directory is unchanged in frame and rights. */
  lemma MapTranslations(p: Pmm, v: Vm, d: nat, x: nat, f: nat, present: bool, w: bool, u: bool)
    requires VmInv(v)
    ensures var (p', v', ok) := Map(p, v, d, x, f, present, w, u);
      && (!ok ==> p' == p && v' == v)
      && v'.kdir == v.kdir && v'.spaces.Keys == v.spaces.Keys && v'.cr3 == v.cr3
      && (ok ==> d in v.spaces && forall d2, y :: d2 in v.spaces ==>
            Lookup(v', d2, y) == if y == x && Shares(v, d, d2, x) then
                                   (if present then Some(Mapped(v, d, d2, x, f, w, u)) else None)
                                 else Lookup(v, d2, y))
      && (ok ==> forall d2 :: Shares(v, d, d2, x) ==> Lookup(v, d2, x) == None)
  {
    hide AllocDirect; hide Lookup; hide SpaceOk;
    var (p', v', ok) := Map(p, v, d, x, f, present, w, u);
    if ok {
      forall d2, y | d2 in v.spaces
        ensures Lookup(v', d2, y) == if y == x && Shares(v, d, d2, x) then
                                       (if present then Some(Mapped(v, d, d2, x, f, w, u)) else None)
                                     else Lookup(v, d2, y)
        ensures y == x && Shares(v, d, d2, x) ==> Lookup(v, d2, x) == None
      {
        MapLookup(p, v, d, x, f, present, w, u, d2, y);
      }
    }
  }

  /** An input: a kernel directory with one table; a page mapped there without PRESENT.  The call
      succeeds and the page stays untranslated. */
  lemma MapWithoutPresent(p: Pmm, f: nat, w: bool)
    ensures var v := Vm(1, map[1 := Space(map[768 := Mapping(2, true, false)], map[])], 1, map[], false);
      var (p', v', ok) := Map(p, v, 1, 786437, f, false, w, false);
      VmInv(v) && ok && p' == p && v'.kdir in v'.spaces && Lookup(v', 1, 786437) == None
  {
    var v := Vm(1, map[1 := Space(map[768 := Mapping(2, true, false)], map[])], 1, map[], false);
    assert SpaceOk(v, 1);
  }

  lemma MapLookup(p: Pmm, v: Vm, d: nat, x: nat, f: nat, present: bool, w: bool, u: bool, d2: nat, y: nat)
    requires v.kdir in v.spaces && d in v.spaces && d2 in v.spaces
    requires SpaceOk(v, d) && SpaceOk(v, d2) && SpaceOk(v, v.kdir)
    requires Map(p, v, d, x, f, present, w, u).2
    ensures var v' := Map(p, v, d, x, f, present, w, u).1;
      && v'.kdir in v'.spaces
      && Lookup(v', d2, y) == (if y == x && Shares(v, d, d2, x) then
                                 (if present then Some(Mapped(v, d, d2, x, f, w, u)) else None)
                               else Lookup(v, d2, y))
      && (y == x && Shares(v, d, d2, x) ==> Lookup(v, d2, x) == None)
  {
    hide AllocDirect; hide Lookup; hide SpaceOk;
    var v' := Map(p, v, d, x, f, present, w, u).1;
    if d2 == d {
      LookupOwn(v, v', d, x, if present then Some(Mapping(f, w, u)) else None, y);
    } else {
      LookupOther(v, v', d, x, if present then Some(Mapping(f, w, u)) else None, d2, y);
    }
  }

  /** `v'` is `v` with the table entry of page `x` made or widened in `d` and page `x`, which
      had no entry, given entry `l`. */
  ghost predicate LeafAdded(v: Vm, v': Vm, d: nat, x: nat, l: Option<Mapping>)
    requires d in v.spaces
  {
    && v'.kdir == v.kdir && v'.spaces.Keys == v.spaces.Keys
    && (forall d3 :: d3 in v.spaces && d3 != d ==> v'.spaces[d3] == v.spaces[d3])
    && Own(v, d, x / ENTRIES) && x !in v.spaces[d].leaves
    && var i, s, s' := x / ENTRIES, v.spaces[d], v'.spaces[d];
    && i in s'.tables && s'.tables == s.tables[i := s'.tables[i]]
    && (i in s.tables ==> s'.tables[i].frame == s.tables[i].frame && Narrower(s.tables[i], s'.tables[i]))
    && s'.leaves == (if l.Some? then s.leaves[x := l.value] else s.leaves)
    && (l.Some? ==> Narrower(l.value, s'.tables[i]))
  }

  lemma LookupOwn(v: Vm, v': Vm, d: nat, x: nat, l: Option<Mapping>, y: nat)
    requires v.kdir in v.spaces && d in v.spaces && SpaceOk(v, d) && SpaceOk(v, v.kdir) && LeafAdded(v, v', d, x, l)
    ensures Lookup(v', d, y) == if y == x then l else Lookup(v, d, y)
    ensures Lookup(v, d, x) == None
  {
  }

  lemma LookupOther(v: Vm, v': Vm, d: nat, x: nat, l: Option<Mapping>, d2: nat, y: nat)
    requires v.kdir in v.spaces && d in v.spaces && d2 in v.spaces && d2 != d
    requires SpaceOk(v, d2) && LeafAdded(v, v', d, x, l)
    ensures Lookup(v', d2, y) ==
            if y == x && Shares(v, d, d2, x) then
              (if l.Some? then Some(Mapped(v, d, d2, x, l.value.frame, l.value.writable, l.value.user)) else None)
            else Lookup(v, d2, y)
    ensures Shares(v, d, d2, x) ==> Lookup(v, d2, x) == None
  {
    assert v'.spaces[d2] == v.spaces[d2];
  }

  lemma MapKeepsInv(p: Pmm, v: Vm, d: nat, x: nat, f: nat, present: bool, w: bool, u: bool)
    requires VmInv(v) && x < VPAGES
    ensures VmInv(Map(p, v, d, x, f, present, w, u).1)
  {
    var (p', v', ok) := Map(p, v, d, x, f, present, w, u);
    MapTranslations(p, v, d, x, f, present, w, u);
    hide AllocDirect; hide Lookup; hide SpaceOk; hide Map;
    if ok {
      forall d2 | d2 in v'.spaces ensures SpaceOk(v', d2) {
        MapSpaceOk(p, v, d, x, f, present, w, u, d2);
      }
    }
  }

  lemma MapSpaceOk(p: Pmm, v: Vm, d: nat, x: nat, f: nat, present: bool, w: bool, u: bool, d2: nat)
    requires v.kdir in v.spaces && d in v.spaces && d2 in v.spaces && x < VPAGES
    requires SpaceOk(v, d) && SpaceOk(v, d2) && SpaceOk(v, v.kdir) && Map(p, v, d, x, f, present, w, u).2
    ensures var v' := Map(p, v, d, x, f, present, w, u).1;
      v'.kdir in v'.spaces && d2 in v'.spaces && SpaceOk(v', d2)
  {
    hide AllocDirect; hide SpaceOk;
    var v' := Map(p, v, d, x, f, present, w, u).1;
    SpaceOkKept(v, v', d, x, if present then Some(Mapping(f, w, u)) else None, d2);
  }

  /** A table entry made or widened, and a page of that table possibly added. */
  lemma SpaceOkKept(v: Vm, v': Vm, d: nat, x: nat, l: Option<Mapping>, d2: nat)
    requires v.kdir in v.spaces && d in v.spaces && d2 in v.spaces && x < VPAGES
    requires SpaceOk(v, d) && SpaceOk(v, d2) && SpaceOk(v, v.kdir) && LeafAdded(v, v', d, x, l)
    ensures SpaceOk(v', d2)
  {
    if d2 != d {
      assert v'.spaces[d2] == v.spaces[d2];
    }
  }

  // ---------------------------------------------------------------- unmap

  /** `Unmap` removes exactly the translation of `x` (in `d` and in the directories sharing
      its table), fails exactly when there is none, and a failure changes nothing. */
  lemma UnmapTranslations(v: Vm, d: nat, x: nat)
    requires VmInv(v)
    ensures var (v', ok) := Unmap(v, d, x);
      && (!ok ==> v' == v)
      && (ok <==> d in v.spaces && Own(v, d, x / ENTRIES) && Lookup(v, d, x).Some?)
      && v'.kdir == v.kdir && v'.spaces.Keys == v.spaces.Keys && v'.cr3 == v.cr3
      && (ok ==> forall d2, y :: d2 in v.spaces ==>
            Lookup(v', d2, y) == if y == x && Shares(v, d, d2, x) then None else Lookup(v, d2, y))
  {
    var (v', ok) := Unmap(v, d, x);
    if ok {
      hide Lookup; hide SpaceOk;
      forall d2, y | d2 in v.spaces
        ensures Lookup(v', d2, y) == if y == x && Shares(v, d, d2, x) then None else Lookup(v, d2, y)
      {
        UnmapLookup(v, d, x, d2, y);
      }
    }
  }

  lemma UnmapLookup(v: Vm, d: nat, x: nat, d2: nat, y: nat)
    requires v.kdir in v.spaces && d in v.spaces && d2 in v.spaces
    requires SpaceOk(v, d) && SpaceOk(v, d2) && SpaceOk(v, v.kdir) && Unmap(v, d, x).1
    ensures var v' := Unmap(v, d, x).0;
      v'.kdir in v'.spaces
      && Lookup(v', d2, y) == if y == x && Shares(v, d, d2, x) then None else Lookup(v, d2, y)
  {
    hide SpaceOk;
    var v' := Unmap(v, d, x).0;
    var s := v.spaces[d];
    assert v'.spaces == v.spaces[d := s.(leaves := s.leaves - {x})];
    hide Unmap;
    if d2 == d {
      assert v'.spaces[d2] == s.(leaves := s.leaves - {x});
    } else {
      assert v'.spaces[d2] == v.spaces[d2];
    }
  }

  lemma UnmapKeepsInv(v: Vm, d: nat, x: nat)
    requires VmInv(v)
    ensures VmInv(Unmap(v, d, x).0)
  {
    var (v', ok) := Unmap(v, d, x);
    UnmapTranslations(v, d, x);
    if ok {
      assert SpaceOk(v, d);
      forall d2 | d2 in v'.spaces ensures SpaceOk(v', d2) {
        assert SpaceOk(v, d2);
      }
    }
  }

  /** Mapping an absent page and unmapping it again restores every translation. */
  lemma MapUnmapRoundTrip(p: Pmm, v: Vm, d: nat, x: nat, f: nat, w: bool, u: bool, d2: nat, y: nat)
    requires VmInv(v) && x < VPAGES && d2 in v.spaces
    requires Map(p, v, d, x, f, true, w, u).2
    ensures var v1 := Map(p, v, d, x, f, true, w, u).1;
      var (v2, ok) := Unmap(v1, d, x);
      ok && v2.kdir in v2.spaces && Lookup(v2, d2, y) == Lookup(v, d2, y)
  {
    hide AllocDirect; hide Lookup; hide Unmap; hide SpaceOk;
    var v1 := Map(p, v, d, x, f, true, w, u).1;
    MapTranslations(p, v, d, x, f, true, w, u);
    MapKeepsInv(p, v, d, x, f, true, w, u);
    UnmapTranslations(v1, d, x);
    assert Lookup(v1, d, x).Some?;
    assert Shares(v1, d, d2, x) <==> Shares(v, d, d2, x);
  }

  // ---------------------------------------------------------------- create, destroy, load

  /** A fresh directory sees the kernel half exactly as the kernel does and nothing below it;
      no existing translation changes. */
  lemma AddSpaceTranslations(v: Vm, d: nat, d2: nat, y: nat)
    requires VmInv(v) && d !in v.spaces
    ensures var v' := v.(spaces := v.spaces[d := Space(HighTables(v), map[])]);
      Lookup(v', d2, y) == if d2 != d then Lookup(v, d2, y)
                           else if y / ENTRIES >= KERNEL_PDE then Lookup(v, v.kdir, y) else None
  {
  }

  lemma AddSpaceKeepsInv(v: Vm, d: nat)
    requires VmInv(v) && d !in v.spaces
    ensures VmInv(v.(spaces := v.spaces[d := Space(HighTables(v), map[])]))
  {
    var v' := v.(spaces := v.spaces[d := Space(HighTables(v), map[])]);
    assert SpaceOk(v, v.kdir);
    forall d2 | d2 in v'.spaces ensures SpaceOk(v', d2) {
      if d2 != d { assert SpaceOk(v, d2); }
    }
    forall x | x in v'.tlb ensures Lookup(v', v'.cr3, x) == Some(v'.tlb[x]) {
      AddSpaceTranslations(v, d, v.cr3, x);
    }
  }

  lemma CreateEffect(p: Pmm, v: Vm)
    requires VmInv(v) && (forall d :: d in v.spaces ==> d in p.used)
    ensures var (p', v', d) := Create(p, v);
      && VmInv(v')
      && (d == 0 ==> p' == p && v' == v)
      && (d != 0 ==>
            && d !in p.used && 1 <= d < p.max && d < DIRECT_PAGES && d !in v.spaces
            && p' == p.(used := p.used + {d})
            && v' == v.(spaces := v.spaces[d := Space(HighTables(v), map[])]))
  {
    AllocDirectEffect(p);
    var (p', v', d) := Create(p, v);
    if d != 0 {
      AddSpaceKeepsInv(v, d);
    }
  }

  /** A kernel-half page mapped after a directory was created: the kernel sees it as mapped,
      the directory not at all if the entry is new, and else with the rights of the old entry. */
  lemma LateKernelPage(p: Pmm, v: Vm, x: nat, f: nat, w: bool, u: bool)
    requires VmInv(v) && (forall d :: d in v.spaces ==> d in p.used) && KERNEL_PDE <= x / ENTRIES < ENTRIES
    requires var (p1, v1, d) := Create(p, v); d != 0 && Map(p1, v1, v1.kdir, x, f, true, w, u).2
    ensures var (p1, v1, d) := Create(p, v);
      var v2 := Map(p1, v1, v1.kdir, x, f, true, w, u).1;
      var was := v.spaces[v.kdir].tables;
      && v2.kdir in v2.spaces && Lookup(v2, v2.kdir, x) == Some(Mapping(f, w, u))
      && Lookup(v2, d, x) == if x / ENTRIES !in was then None
                             else Some(Mapping(f, w && was[x / ENTRIES].writable, u && was[x / ENTRIES].user))
  {
    CreateEffect(p, v);
    var (p1, v1, d) := Create(p, v);
    MapTranslations(p1, v1, v1.kdir, x, f, true, w, u);
    hide AllocDirect; hide SpaceOk; hide Map;
    assert v1.spaces[d].tables == HighTables(v);
  }

  /** Loading any live directory re-establishes TLB agreement. */
  lemma LoadKeepsInv(v: Vm, d: nat)
    requires VmInv(v) && d in v.spaces
    ensures VmInv(Load(v, d))
  {
    var v' := Load(v, d);
    forall d2 | d2 in v'.spaces ensures SpaceOk(v', d2) { assert SpaceOk(v, d2); }
  }

  lemma FillKeepsInv(v: Vm, x: nat)
    requires VmInv(v)
    ensures VmInv(Fill(v, x))
    ensures forall d, y :: Lookup(Fill(v, x), d, y) == Lookup(v, d, y)
  {
    var v' := Fill(v, x);
    forall d, y ensures Lookup(v', d, y) == Lookup(v, d, y) {}
    forall d2 | d2 in v'.spaces ensures SpaceOk(v', d2) { assert SpaceOk(v, d2); }
  }

  /** A directory that is neither loaded nor the kernel's can go without touching any other
      space's translations or the TLB. */
  lemma RemoveKeepsInv(v: Vm, d: nat)
    requires VmInv(v) && d in v.spaces && d != v.kdir && d != v.cr3
    ensures VmInv(v.(spaces := v.spaces - {d}))
    ensures var v' := v.(spaces := v.spaces - {d});
      forall d2, y :: d2 != d ==> Lookup(v', d2, y) == Lookup(v, d2, y)
  {
    var v' := v.(spaces := v.spaces - {d});
    forall d2, y | d2 != d ensures Lookup(v', d2, y) == Lookup(v, d2, y) {}
    forall d2 | d2 in v'.spaces ensures SpaceOk(v', d2) { assert SpaceOk(v, d2); }
  }

  // ---------------------------------------------------------------- direct map

  /** A map or unmap outside the direct-map pages, in any directory, keeps the direct map of
      every live space; calls on user directories cannot touch those pages at all. */
  lemma MapKeepsDirect(p: Pmm, v: Vm, d: nat, x: nat, f: nat, present: bool, w: bool, u: bool, d2: nat)
    requires VmInv(v) && d2 in v.spaces && DirectMapped(v, d2)
    requires d == v.kdir ==> !(BASE_VPN <= x < BASE_VPN + DIRECT_PAGES)
    ensures var v' := Map(p, v, d, x, f, present, w, u).1;
      v'.kdir in v'.spaces && DirectMapped(v', d2)
  {
    MapTranslations(p, v, d, x, f, present, w, u);
  }

  lemma UnmapKeepsDirect(v: Vm, d: nat, x: nat, d2: nat)
    requires VmInv(v) && d2 in v.spaces && DirectMapped(v, d2)
    requires d == v.kdir ==> !(BASE_VPN <= x < BASE_VPN + DIRECT_PAGES)
    ensures var v' := Unmap(v, d, x).0;
      v'.kdir in v'.spaces && DirectMapped(v', d2)
  {
    UnmapTranslations(v, d, x);
  }
}
