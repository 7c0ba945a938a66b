/**
 * The EMXA archive: written by `scripts/mkemxa.py`, read by `kernel/initramfs.c`.
 */
module Archive {
  import opened Arith
  import opened Common

  type Bytes = seq<Byte>

  const HEADER_SIZE: nat := 8
  const ENTRY_SIZE: nat := 40
  const PATH_SIZE: nat := 32
  const MAGIC: Bytes := [69, 77, 88, 65]  // "EMXA"
  const U32: nat := 0x1_0000_0000

  datatype File = File(path: Bytes, contents: Bytes)

  // ---------------------------------------------------------------- little-endian words

  /** `read_le32`. */
  function ReadLe32(b: Bytes, at: nat): (n: nat)
    requires at + 4 <= |b|
    ensures n < U32
  {
    var b0: nat, b1: nat, b2: nat, b3: nat := b[at], b[at + 1], b[at + 2], b[at + 3];
    b0 + 0x100 * b1 + 0x1_0000 * b2 + 0x100_0000 * b3
  }

  /** `struct.pack("<I", n)`. */
  function PackLe32(n: nat): (b: Bytes)
    ensures |b| == 4
  {
    [n % 0x100, n / 0x100 % 0x100, n / 0x1_0000 % 0x100, n / 0x100_0000 % 0x100]
  }

  lemma PackRead(n: nat, b: Bytes, at: nat)
    requires n < U32 && at + 4 <= |b| && b[at..at + 4] == PackLe32(n)
    ensures ReadLe32(b, at) == n
  {
    var s := b[at..at + 4];
    assert b[at] == s[0] && b[at + 1] == s[1] && b[at + 2] == s[2] && b[at + 3] == s[3];
    assert n / 0x100 / 0x100 == n / 0x1_0000 && n / 0x1_0000 / 0x100 == n / 0x100_0000;
  }

  /** The least significant byte comes first. */
  lemma LeastFirst(b: Bytes, at: nat)
    requires at + 4 <= |b|
    ensures ReadLe32(b, at) % 0x100 == b[at] && ReadLe32(b, at) / 0x100 % 0x100 == b[at + 1]
    ensures ReadLe32(b, at) / 0x1_0000 % 0x100 == b[at + 2] && ReadLe32(b, at) / 0x100_0000 == b[at + 3]
  {
    ReadPack(b, at);
    var s := b[at..at + 4];
    assert s[0] == b[at] && s[1] == b[at + 1] && s[2] == b[at + 2] && s[3] == b[at + 3];
    hide PackLe32;
    var b0: nat, b1: nat, b2: nat, b3: nat := b[at], b[at + 1], b[at + 2], b[at + 3];
    var n := ReadLe32(b, at);
    DivModIs(n, 0x100, b1 + 0x100 * b2 + 0x1_0000 * b3, b0);
    DivModIs(b1 + 0x100 * b2 + 0x1_0000 * b3, 0x100, b2 + 0x100 * b3, b1);
    DivModIs(n, 0x1_0000, b2 + 0x100 * b3, b0 + 0x100 * b1);
    DivModIs(b2 + 0x100 * b3, 0x100, b3, b2);
    DivModIs(n, 0x100_0000, b3, b0 + 0x100 * b1 + 0x1_0000 * b2);
  }

  /** ... and packing a word that was read gives its bytes. */
  lemma ReadPack(b: Bytes, at: nat)
    requires at + 4 <= |b|
    ensures PackLe32(ReadLe32(b, at)) == b[at..at + 4]
  {
    var b0: nat, b1: nat, b2: nat, b3: nat := b[at], b[at + 1], b[at + 2], b[at + 3];
    var n := ReadLe32(b, at);
    var x1: nat := b1 + 0x100 * b2 + 0x1_0000 * b3;
    var x2: nat := b2 + 0x100 * b3;
    DivModIs(n, 0x100, x1, b0);
    DivModIs(x1, 0x100, x2, b1);
    DivModIs(x2, 0x100, b3, b2);
    DivModIs(n, 0x1_0000, x2, b0 + 0x100 * b1);
    DivModIs(n, 0x100_0000, b3, b0 + 0x100 * b1 + 0x1_0000 * b2);
  }

  // ---------------------------------------------------------------- reader

  /** A C string: NUL-free bytes with a terminating NUL at index |path|. */
  predicate IsCString(path: Bytes) { forall i :: 0 <= i < |path| ==> path[i] != 0 }

  /** The path field at `at` holds exactly `path` and its terminator. */
  predicate Matches(a: Bytes, at: nat, path: Bytes)
  {
    |path| < PATH_SIZE && at + PATH_SIZE <= |a| && a[at..at + |path|] == path && a[at + |path|] == 0
  }

  /** `path_matches`; index |path| of a C string reads as NUL. */
  method PathMatches(a: Bytes, at: nat, path: Bytes) returns (r: bool)
    requires IsCString(path) && at + PATH_SIZE <= |a|
    ensures r <==> Matches(a, at, path)
  {
    var i := 0;
    while i < PATH_SIZE
      invariant 0 <= i <= PATH_SIZE && i <= |path|
      invariant a[at..at + i] == path[..i]
    {
      var c := if i < |path| then path[i] else 0;
      if a[at + i] != c {
        if |path| < PATH_SIZE && i < |path| {
          assert a[at..at + |path|][i] == a[at + i];
        }
        return false;
      }
      if c == 0 { return true; }
      assert a[at..at + i + 1] == a[at..at + i] + [a[at + i]];
      i := i + 1;
    }
    return false;
  }

  /** Number of entries of a well-formed archive (`initramfs_header`). */
  function EntryCount(a: Bytes): (r: Option<nat>)
    ensures r.Some? ==> HEADER_SIZE + 40 * r.value <= |a|
  {
    if |a| < HEADER_SIZE || a[..4] != MAGIC then None
    else
      var n := ReadLe32(a, 4);
      if n > (|a| - HEADER_SIZE) / 40 then None else Some(n)
  }

  function EntryAt(i: nat): nat { HEADER_SIZE + 40 * i }

  /** First entry at or after `i` whose path matches; `n` if none. */
  function FirstEntry(a: Bytes, n: nat, path: Bytes, i: nat): (k: nat)
    requires i <= n
    ensures i <= k <= n
    ensures k < n ==> Matches(a, EntryAt(k), path)
    ensures forall j :: i <= j < k ==> !Matches(a, EntryAt(j), path)
    decreases n - i
  {
    if i == n || Matches(a, EntryAt(i), path) then i else FirstEntry(a, n, path, i + 1)
  }

  /** Position and size of the file found under `path` (`initramfs_find`). */
  function Locate(a: Bytes, path: Bytes): (r: Option<(nat, nat)>)
    ensures r.Some? ==> r.value.0 + r.value.1 <= |a|
  {
    match EntryCount(a)
    case None => None
    case Some(n) =>
      var k := FirstEntry(a, n, path, 0);
      if k == n then None
      else
        var offset, size := ReadLe32(a, EntryAt(k) + PATH_SIZE), ReadLe32(a, EntryAt(k) + PATH_SIZE + 4);
        if offset > |a| || size > |a| - offset then None else Some((offset, size))
  }

  /** The bytes `initramfs_find` hands out. */
  function Find(a: Bytes, path: Bytes): (r: Option<Bytes>)
  {
    var r := Locate(a, path);
    if r.None? then None else Some(a[r.value.0..r.value.0 + r.value.1])
  }

  /** Entry `k`, 40 bytes from byte 8 + 40 k on, is the first of the `n` entries whose path field holds
      `path`, and the words behind that field span `contents` inside the archive. */
  predicate HoldsAt(a: Bytes, n: nat, path: Bytes, k: nat, contents: Bytes)
  {
    && k < n && 8 + 40 * n <= |a|
    && Matches(a, 8 + 40 * k, path) && (forall j :: 0 <= j < k ==> !Matches(a, 8 + 40 * j, path))
    && var offset, size := ReadLe32(a, 40 + 40 * k), ReadLe32(a, 44 + 40 * k);
    && offset + size <= |a| && contents == a[offset..offset + size]
  }

  /** On any bytes at all: `initramfs_find` finds `contents` if and only if they are an archive whose
      header counts entries that fit, and its first entry for the path spans `contents`; a later
      entry for the same path is never used. */
  lemma FindExact(a: Bytes, path: Bytes, contents: Bytes)
    ensures Find(a, path) == Some(contents) <==>
            |a| >= 8 && a[..4] == MAGIC && exists k :: 0 <= k && HoldsAt(a, ReadLe32(a, 4), path, k, contents)
  {
    hide HoldsAt; hide Find;
    if Find(a, path) == Some(contents) {
      FoundHolds(a, path, contents);
    }
    if |a| >= 8 && a[..4] == MAGIC && exists k :: 0 <= k && HoldsAt(a, ReadLe32(a, 4), path, k, contents) {
      var k :| 0 <= k && HoldsAt(a, ReadLe32(a, 4), path, k, contents);
      HeldFound(a, path, k, contents);
    }
  }

  lemma FoundHolds(a: Bytes, path: Bytes, contents: Bytes)
    requires Find(a, path) == Some(contents)
    ensures |a| >= 8 && a[..4] == MAGIC && exists k :: 0 <= k && HoldsAt(a, ReadLe32(a, 4), path, k, contents)
  {
    hide ReadLe32; hide Matches;
    var n := EntryCount(a).value;
    var k := FirstEntry(a, n, path, 0);
    assert EntryAt(k) == 8 + 40 * k;
    forall j | 0 <= j < k ensures !Matches(a, 8 + 40 * j, path) { assert EntryAt(j) == 8 + 40 * j; }
    hide FirstEntry;
    assert HoldsAt(a, n, path, k, contents);
  }

  lemma HeldFound(a: Bytes, path: Bytes, k: nat, contents: Bytes)
    requires |a| >= 8 && a[..4] == MAGIC && HoldsAt(a, ReadLe32(a, 4), path, k, contents)
    ensures Find(a, path) == Some(contents)
  {
    hide ReadLe32; hide Matches;
    var n := ReadLe32(a, 4);
    assert EntryCount(a) == Some(n);
    var f := FirstEntry(a, n, path, 0);
    assert EntryAt(k) == 8 + 40 * k && EntryAt(f) == 8 + 40 * f;
    assert f == k;
    hide FirstEntry; hide EntryCount;
    FindEntry(a, path, k, contents);
  }

  /** `initramfs_header`. */
  method InitramfsHeader(a: Bytes) returns (r: Option<nat>)
    ensures r == EntryCount(a)
  {
    if |a| < HEADER_SIZE { return None; }
    assert a[..4] == [a[0], a[1], a[2], a[3]];
    if a[0] != 69 || a[1] != 77 || a[2] != 88 || a[3] != 65 { return None; }
    var count := ReadLe32(a, 4);
    if count > (|a| - HEADER_SIZE) / 40 { return None; }
    return Some(count);
  }

  /** The scanning loop of `initramfs_find`. */
  method ScanEntries(a: Bytes, count: nat, path: Bytes) returns (k: nat)
    requires IsCString(path) && EntryAt(count) <= |a|
    ensures k == FirstEntry(a, count, path, 0)
  {
    k := 0;
    while k < count
      invariant 0 <= k <= count
      invariant FirstEntry(a, count, path, 0) == FirstEntry(a, count, path, k)
    {
      var m := PathMatches(a, EntryAt(k), path);
      if m { return; }
      k := k + 1;
    }
  }

  /** `initramfs_find` on an arbitrary byte sequence: every access is inside the archive. */
  method InitramfsFind(a: Bytes, path: Bytes) returns (r: Option<(nat, nat)>)
    requires IsCString(path)
    ensures r == Locate(a, path)
  {
    var header := InitramfsHeader(a);
    if header == None { return None; }
    var count := header.value;
    var k := ScanEntries(a, count, path);
    if k == count { return None; }
    var offset := ReadLe32(a, EntryAt(k) + PATH_SIZE);
    var size := ReadLe32(a, EntryAt(k) + PATH_SIZE + 4);
    if offset > |a| || size > |a| - offset { return None; }
    return Some((offset, size));
  }

  // ---------------------------------------------------------------- writer

  function Zeros(n: nat): (b: Bytes)
    ensures |b| == n && forall i :: 0 <= i < n ==> b[i] == 0
  {
    seq(n, _ => 0)
  }

  /** Total length of the file contents. */
  function DataSize(files: seq<File>): nat
  {
    if files == [] then 0 else DataSize(files[..|files| - 1]) + |files[|files| - 1].contents|
  }

  predicate ShortPaths(files: seq<File>)
  {
    forall i :: 0 <= i < |files| ==> |files[i].path| < PATH_SIZE
  }

  predicate Packable(files: seq<File>)
  {
    && ShortPaths(files)
    && (forall i :: 0 <= i < |files| ==> IsCString(files[i].path))
    && HEADER_SIZE + 40 * |files| + DataSize(files) < U32
  }

  function PathField(path: Bytes): (b: Bytes)
    ensures |path| <= PATH_SIZE ==> |b| == PATH_SIZE
  {
    path + Zeros(if |path| <= PATH_SIZE then PATH_SIZE - |path| else 0)
  }

  function Entry(f: File, offset: nat): (b: Bytes)
    ensures |f.path| < PATH_SIZE ==> |b| == ENTRY_SIZE
  {
    PathField(f.path) + (PackLe32(offset) + PackLe32(|f.contents|))
  }

  /** Entry table of `files` when the data area starts at `base`. */
  function Entries(files: seq<File>, base: nat): (b: Bytes)
    ensures ShortPaths(files) ==> |b| == 40 * |files|
  {
    if files == [] then []
    else
      var before := files[..|files| - 1];
      Entries(before, base) + Entry(files[|files| - 1], base + DataSize(before))
  }

  function Data(files: seq<File>): (b: Bytes)
    ensures |b| == DataSize(files)
  {
    if files == [] then [] else Data(files[..|files| - 1]) + files[|files| - 1].contents
  }

  function Head(files: seq<File>): Bytes { MAGIC + PackLe32(|files|) }

  /** The archive layout. */
  function Build(files: seq<File>): Bytes
  {
    Head(files) + Entries(files, HEADER_SIZE + 40 * |files|) + Data(files)
  }

  /** `main` of mkemxa after the inputs are read: refuses over-long paths, otherwise lays the
      archive out. */
  method MkEmxa(files: seq<File>) returns (r: Option<Bytes>)
    ensures r.Some? <==> ShortPaths(files)
    ensures r.Some? ==> r.value == Build(files)
  {
    hide Build;
    for i := 0 to |files|
      invariant forall j :: 0 <= j < i ==> |files[j].path| < PATH_SIZE
    {
      if |files[i].path| >= PATH_SIZE { return None; }
    }
    var archive := LayOut(files);
    r := Some(archive);
  }

  /** The second half: entries go to `archive`, contents to `data`, and the two are joined. */
  method LayOut(files: seq<File>) returns (archive: Bytes)
    ensures archive == Build(files)
  {
    LayoutStarts(files);
    BuildIs(files);
    hide *;
    var dataOffset := 8 + 40 * |files|;
    archive := MAGIC + PackLe32(|files|);
    var data: Bytes := [];
    for i := 0 to |files|
      invariant archive == Head(files) + Entries(files[..i], dataOffset)
      invariant data == Data(files[..i])
    {
      var e := PathField(files[i].path) + (PackLe32(dataOffset + |data|) + PackLe32(|files[i].contents|));
      LayoutStep(files, dataOffset, i);
      EntryBytes(files[i], dataOffset + |data|);
      Assoc(Head(files), Entries(files[..i], dataOffset), e);
      archive := archive + e;
      data := data + files[i].contents;
    }
    assert files[..|files|] == files;
    archive := archive + data;
  }

  lemma LayoutStarts(files: seq<File>)
    ensures MAGIC + PackLe32(|files|) == Head(files) + Entries(files[..0], 8 + 40 * |files|) && Data(files[..0]) == []
  {
    NoEntries(8 + 40 * |files|);
    hide PackLe32; hide Entries; hide Data;
    assert files[..0] == [];
  }

  lemma BuildIs(files: seq<File>)
    ensures Build(files) == Head(files) + Entries(files, 8 + 40 * |files|) + Data(files)
  {
    hide Head; hide Entries; hide Data;
  }

  lemma NoEntries(base: nat)
    ensures Entries([], base) == [] && Data([]) == []
  {
  }

  lemma EntryBytes(f: File, offset: nat)
    ensures Entry(f, offset) == PathField(f.path) + (PackLe32(offset) + PackLe32(|f.contents|))
  {
    hide PathField; hide PackLe32;
  }

  lemma LayoutStep(files: seq<File>, base: nat, i: nat)
    requires i < |files|
    ensures Entries(files[..i + 1], base) == Entries(files[..i], base) + Entry(files[i], base + |Data(files[..i])|)
    ensures Data(files[..i + 1]) == Data(files[..i]) + files[i].contents
  {
    hide Entry; hide DataSize;
    assert files[..i + 1][..i] == files[..i];
  }

  lemma Assoc<T>(a: seq<T>, b: seq<T>, c: seq<T>)
    ensures a + (b + c) == (a + b) + c
  {
  }

  // ---------------------------------------------------------------- round trip

  lemma SliceRight<T>(a: seq<T>, b: seq<T>, lo: nat, hi: nat)
    requires |a| <= lo <= hi <= |a| + |b|
    ensures (a + b)[lo..hi] == b[lo - |a|..hi - |a|]
  {
  }

  lemma SliceLeft<T>(a: seq<T>, b: seq<T>, lo: nat, hi: nat)
    requires lo <= hi <= |a|
    ensures (a + b)[lo..hi] == a[lo..hi]
  {
  }

  lemma {:induction false} EntrySlice(files: seq<File>, base: nat, i: nat)
    requires ShortPaths(files) && i < |files|
    ensures Entries(files, base)[40 * i..40 * i + 40] == Entry(files[i], base + DataSize(files[..i]))
    decreases |files|
  {
    hide Entry; hide DataSize;
    var n := |files| - 1;
    var before := files[..n];
    var last := Entry(files[n], base + DataSize(before));
    if i == n {
      SliceRight(Entries(before, base), last, 40 * i, 40 * i + 40);
    } else {
      EntrySlice(before, base, i);
      assert before[..i] == files[..i];
      SliceLeft(Entries(before, base), last, 40 * i, 40 * i + 40);
    }
  }

  lemma {:induction false} DataSlice(files: seq<File>, i: nat)
    requires i < |files|
    ensures DataSize(files[..i]) + |files[i].contents| <= DataSize(files)
    ensures Data(files)[DataSize(files[..i])..DataSize(files[..i]) + |files[i].contents|] == files[i].contents
    decreases |files|
  {
    var n := |files| - 1;
    var before := files[..n];
    if i == n {
      SliceRight(Data(before), files[n].contents, DataSize(before), DataSize(files));
    } else {
      DataSlice(before, i);
      assert before[..i] == files[..i];
      SliceLeft(Data(before), files[n].contents, DataSize(files[..i]), DataSize(files[..i]) + |files[i].contents|);
    }
  }

  /** What the built archive holds at entry `i`. */
  lemma BuiltEntry(files: seq<File>, i: nat)
    requires Packable(files) && i < |files|
    ensures var a := Build(files);
      EntryAt(i) + ENTRY_SIZE <= |a|
      && a[EntryAt(i)..EntryAt(i) + ENTRY_SIZE] == Entry(files[i], HEADER_SIZE + 40 * |files| + DataSize(files[..i]))
  {
    var base := HEADER_SIZE + 40 * |files|;
    var head, es, ds := Head(files), Entries(files, base), Data(files);
    EntrySlice(files, base, i);
    hide Entries; hide Entry; hide Data; hide DataSize; hide PackLe32;
    MiddleSlice(head, es, ds, 40 * i, 40 * i + 40);
  }

  lemma MiddleSlice<T>(a: seq<T>, b: seq<T>, c: seq<T>, lo: nat, hi: nat)
    requires lo <= hi <= |b|
    ensures (a + b + c)[|a| + lo..|a| + hi] == b[lo..hi]
  {
    SliceLeft(a + b, c, |a| + lo, |a| + hi);
    SliceRight(a, b, |a| + lo, |a| + hi);
  }

  lemma BuiltData(files: seq<File>, i: nat)
    requires Packable(files) && i < |files|
    ensures var a := Build(files);
      var offset := HEADER_SIZE + 40 * |files| + DataSize(files[..i]);
      && offset + |files[i].contents| <= |a| && offset + |files[i].contents| < U32
      && a[offset..offset + |files[i].contents|] == files[i].contents
  {
    var base := HEADER_SIZE + 40 * |files|;
    var offset := base + DataSize(files[..i]);
    var front, ds := Head(files) + Entries(files, base), Data(files);
    DataSlice(files, i);
    BuildIs(files);
    HeadSize(files, base);
    hide *;
    SliceRight(front, ds, offset, offset + |files[i].contents|);
  }

  lemma HeadSize(files: seq<File>, base: nat)
    requires Packable(files)
    ensures |Head(files) + Entries(files, base)| == 8 + 40 * |files|
    ensures 8 + 40 * |files| + DataSize(files) < U32
  {
    hide Entries; hide DataSize; hide PackLe32;
  }

  /** An entry made for `f` matches exactly the path of `f`. */
  lemma EntryMatches(a: Bytes, at: nat, f: File, offset: nat, path: Bytes)
    requires at + ENTRY_SIZE <= |a| && |f.path| < PATH_SIZE
    requires IsCString(path) && IsCString(f.path)
    requires a[at..at + ENTRY_SIZE] == Entry(f, offset)
    ensures Matches(a, at, path) <==> f.path == path
  {
    var e := Entry(f, offset);
    assert a[at..at + |f.path|] == a[at..at + ENTRY_SIZE][..|f.path|] == e[..|f.path|] == f.path;
    assert a[at + |f.path|] == a[at..at + ENTRY_SIZE][|f.path|] == e[|f.path|] == 0;
    if Matches(a, at, path) {
      SamePath(a, at, path, f.path);
    }
  }

  lemma NulAfter(a: Bytes, at: nat, s: Bytes, k: nat)
    requires IsCString(s) && at + |s| <= |a| && at + k < |a|
    requires a[at..at + |s|] == s && a[at + k] == 0
    ensures k >= |s|
  {
  }

  /** A position spells at most one C string. */
  lemma SamePath(a: Bytes, at: nat, s: Bytes, t: Bytes)
    requires IsCString(s) && IsCString(t) && at + |s| < |a| && at + |t| < |a|
    requires a[at..at + |s|] == s && a[at + |s|] == 0
    requires a[at..at + |t|] == t && a[at + |t|] == 0
    ensures s == t
  {
    NulAfter(a, at, s, |t|);
    NulAfter(a, at, t, |s|);
  }

  lemma EntryFields(a: Bytes, at: nat, f: File, offset: nat)
    requires at + ENTRY_SIZE <= |a| && |f.path| < PATH_SIZE && offset < U32 && |f.contents| < U32
    requires a[at..at + ENTRY_SIZE] == Entry(f, offset)
    ensures ReadLe32(a, at + PATH_SIZE) == offset
    ensures ReadLe32(a, at + PATH_SIZE + 4) == |f.contents|
  {
    var e := a[at..at + ENTRY_SIZE];
    assert a[at + PATH_SIZE..at + PATH_SIZE + 4] == e[PATH_SIZE..PATH_SIZE + 4];
    assert e[PATH_SIZE..PATH_SIZE + 4] == PackLe32(offset);
    PackRead(offset, a, at + PATH_SIZE);
    assert a[at + PATH_SIZE + 4..at + PATH_SIZE + 8] == e[PATH_SIZE + 4..PATH_SIZE + 8];
    assert e[PATH_SIZE + 4..PATH_SIZE + 8] == PackLe32(|f.contents|);
    PackRead(|f.contents|, a, at + PATH_SIZE + 4);
  }

  lemma BuiltCount(files: seq<File>)
    requires Packable(files)
    ensures EntryCount(Build(files)) == Some(|files|)
  {
    var a := Build(files);
    assert a[..4] == MAGIC;
    assert a[4..8] == PackLe32(|files|);
    PackRead(|files|, a, 4);
  }

  /** First file stored under `path`; |files| if none. */
  function FirstFile(files: seq<File>, path: Bytes, i: nat): (k: nat)
    requires i <= |files|
    ensures i <= k <= |files|
    ensures k < |files| ==> files[k].path == path
    ensures forall j :: i <= j < k ==> files[j].path != path
    decreases |files| - i
  {
    if i == |files| || files[i].path == path then i else FirstFile(files, path, i + 1)
  }

  lemma SameFirst(a: Bytes, files: seq<File>, path: Bytes)
    requires forall i :: 0 <= i < |files| ==> (Matches(a, EntryAt(i), path) <==> files[i].path == path)
    ensures FirstEntry(a, |files|, path, 0) == FirstFile(files, path, 0)
  {
    var k, m := FirstEntry(a, |files|, path, 0), FirstFile(files, path, 0);
    assert k < |files| ==> files[k].path == path;
    assert m < |files| ==> Matches(a, EntryAt(m), path);
  }

  lemma BuiltMatches(files: seq<File>, path: Bytes, i: nat)
    requires Packable(files) && IsCString(path) && i < |files|
    ensures Matches(Build(files), EntryAt(i), path) <==> files[i].path == path
  {
    BuiltEntry(files, i);
    EntryMatches(Build(files), EntryAt(i), files[i], HEADER_SIZE + 40 * |files| + DataSize(files[..i]), path);
  }

  lemma BuiltSpan(files: seq<File>, k: nat)
    requires Packable(files) && k < |files|
    ensures var a := Build(files);
      EntryAt(k) + ENTRY_SIZE <= |a| &&
      var offset, size := ReadLe32(a, EntryAt(k) + PATH_SIZE), ReadLe32(a, EntryAt(k) + PATH_SIZE + 4);
      offset + size <= |a| && a[offset..offset + size] == files[k].contents
  {
    hide Build; hide Entry; hide DataSize; hide ReadLe32;
    BuiltEntry(files, k);
    BuiltData(files, k);
    EntryFields(Build(files), EntryAt(k), files[k], HEADER_SIZE + 40 * |files| + DataSize(files[..k]));
  }

  lemma FindEntry(a: Bytes, path: Bytes, k: nat, contents: Bytes)
    requires EntryCount(a).Some? && k == FirstEntry(a, EntryCount(a).value, path, 0) < EntryCount(a).value
    requires var offset, size := ReadLe32(a, EntryAt(k) + PATH_SIZE), ReadLe32(a, EntryAt(k) + PATH_SIZE + 4);
      offset + size <= |a| && a[offset..offset + size] == contents
    ensures Find(a, path) == Some(contents)
  {
  }

  lemma FindNone(a: Bytes, path: Bytes)
    requires EntryCount(a).Some? && FirstEntry(a, EntryCount(a).value, path, 0) == EntryCount(a).value
    ensures Find(a, path) == None
  {
  }

  /** Writer and reader agree: looking a path up in a built archive yields the contents of
      the first file packed under it, and nothing exactly when no file was. */
  lemma RoundTrip(files: seq<File>, path: Bytes)
    requires Packable(files) && IsCString(path)
    ensures var k := FirstFile(files, path, 0);
      Find(Build(files), path) == if k == |files| then None else Some(files[k].contents)
  {
    BuiltCount(files);
    forall i | 0 <= i < |files| ensures Matches(Build(files), EntryAt(i), path) <==> files[i].path == path {
      BuiltMatches(files, path, i);
    }
    SameFirst(Build(files), files, path);
    var k := FirstFile(files, path, 0);
    if k < |files| {
      BuiltSpan(files, k);
      FindEntry(Build(files), path, k, files[k].contents);
    } else {
      FindNone(Build(files), path);
    }
  }
}
