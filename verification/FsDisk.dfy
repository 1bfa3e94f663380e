// File blocks, data blocks and directory entries on the disk
// (kernel/driver/filesystem/filesystem.h:58-96, filesystem.c:129-142, 244-283).
module FsDisk {
  import opened Options
  import opened Bits
  import opened FsBlocks
  import opened FsTree

  // ------------------------------------------------------------------- blocks

  /** A block of the disk other than the first, which holds the superblock. */
  predicate IsBlock(d: Disk, b: nat) { 0 < b && 4 * (b + 1) <= |d| <= WORD }

  /** The four sectors of a block. */
  type Four = s: seq<Sector> | |s| == 4 witness [Zero(), Zero(), Zero(), Zero()]

  function Zero(): Sector { seq(128, _ => 0) }

  function At(d: Disk, b: nat): Four
    requires IsBlock(d, b)
  {
    d[4 * b..4 * b + 4]
  }

  function WriteBlock(d: Disk, b: nat, four: Four): (e: Disk)
    requires 4 * (b + 1) <= |d|
    ensures |e| == |d|
  {
    d[..4 * b] + four + d[4 * b + 4..]
  }

  /** One block of the disk is new, the superblock and the other blocks are as they
      were. */
  lemma WriteOne(d: Disk, b: nat, four: Four, c: nat)
    requires IsBlock(d, b)
    ensures var e := WriteBlock(d, b, four);
            && IsBlock(e, b) && e[0] == d[0] && e[1] == d[1]
            && (IsBlock(d, c) ==> IsBlock(e, c) && At(e, c) == if c == b then four else At(d, c))
  {
    var e := WriteBlock(d, b, four);
    if IsBlock(d, c) {
      forall j | 0 <= j < 4
        ensures At(e, c)[j] == if c == b then four[j] else At(d, c)[j]
      {
        assert At(e, c)[j] == e[4 * c + j];
      }
    }
  }

  // ------------------------------------------------------------------ extents

  /** Extent i of a file block: the pair of words from 256 on. */
  datatype Extent = Extent(address: u32, size: u32)

  const DATA_BLOCK_PTRS: nat := 128

  function Pointer(four: Four, i: nat): Extent
    requires i < DATA_BLOCK_PTRS
  {
    Extent(four[2 + i / 64][2 * (i % 64)], four[2 + i / 64][2 * (i % 64) + 1])
  }

  /** The extents from i on, up to the first of size 0. */
  function Extents(four: Four, i: nat): seq<Extent>
    requires i <= DATA_BLOCK_PTRS
    decreases DATA_BLOCK_PTRS - i
  {
    if i == DATA_BLOCK_PTRS || Pointer(four, i).size == 0 then [] else [Pointer(four, i)] + Extents(four, i + 1)
  }

  /** What seekDataBlock makes of them. */
  function Seek(xs: seq<Extent>, offset: nat): u32 {
    if xs == [] then 0 else if offset < xs[0].size then xs[0].address else Seek(xs[1..], offset - xs[0].size)
  }

  /** The block in which block number offset of the file is. */
  function Locate(xs: seq<Extent>, offset: nat): Option<nat> {
    if xs == [] then None
    else if offset < xs[0].size then Some(xs[0].address + offset)
    else Locate(xs[1..], offset - xs[0].size)
  }

  predicate SeeksRight(xs: seq<Extent>, offset: nat) {
    Locate(xs, offset).Some? ==> Locate(xs, offset).value == Seek(xs, offset)
  }

  /** The two agree on every offset within the file exactly when each extent is one
      block long, which is all that this driver creates. */
  lemma {:induction false} SeekLocates(xs: seq<Extent>)
    requires forall i :: 0 <= i < |xs| ==> xs[i].size > 0
    ensures (forall o: nat :: SeeksRight(xs, o)) <==> forall i :: 0 <= i < |xs| ==> xs[i].size == 1
  {
    if xs != [] {
      SeekLocates(xs[1..]);
      if xs[0].size > 1 {
        assert !SeeksRight(xs, 1);
      } else {
        forall o: nat
          ensures SeeksRight(xs, o + 1) == SeeksRight(xs[1..], o)
        {
        }
        if forall i :: 0 <= i < |xs| ==> xs[i].size == 1 {
          forall o: nat
            ensures SeeksRight(xs, o)
          {
            if o > 0 { assert SeeksRight(xs[1..], o - 1); }
          }
        } else {
          var i :| 0 <= i < |xs| && xs[i].size != 1;
          assert xs[1..][i - 1].size != 1;
          var o: nat :| !SeeksRight(xs[1..], o);
          assert !SeeksRight(xs, o + 1);
        }
      }
    }
  }

  /** A file block with one extent of two blocks: the second of them is not found. */
  lemma SeekMisses(address: u32)
    ensures var four := [Zero(), Zero(), Zero()[0 := address][1 := 2], Zero()];
            Extents(four, 0) == [Extent(address, 2)] && !SeeksRight(Extents(four, 0), 1)
  {
    var four: Four := [Zero(), Zero(), Zero()[0 := address][1 := 2], Zero()];
    assert Pointer(four, 0) == Extent(address, 2) && Pointer(four, 1).size == 0;
    assert Extents(four, 1) == [];
  }

  // --------------------------------------------------------- files and entries

  /** The file block's one data block is b. */
  ghost predicate IsFile(four: Four, b: nat) {
    b < WORD && Extents(four, 0) == [Extent(b, 1)]
  }

  function EntryAt(four: Four, i: nat): Entry
    requires i < DIR_FILE_PTRS
  {
    Entry(four[i / 64][2 * (i % 64)], four[i / 64][2 * (i % 64) + 1])
  }

  function WithEntry(four: Four, i: nat, e: Entry): Four
    requires i < DIR_FILE_PTRS
  {
    four[i / 64 := four[i / 64][2 * (i % 64) := e.address][2 * (i % 64) + 1 := e.hash]]
  }

  lemma EntrySet(four: Four, i: nat, e: Entry, j: nat)
    requires i < DIR_FILE_PTRS && j < DIR_FILE_PTRS
    ensures EntryAt(WithEntry(four, i, e), j) == if j == i then e else EntryAt(four, j)
  {
    if i / 64 == j / 64 {
      assert i % 64 == j % 64 <==> i == j;
      assert 2 * (i % 64) != 2 * (j % 64) + 1 && 2 * (j % 64) != 2 * (i % 64) + 1;
    }
  }

  /** The block holds the entries es; the places left have address 0. */
  ghost predicate IsDir(four: Four, es: seq<Entry>) {
    && |es| <= DIR_FILE_PTRS
    && (forall i :: 0 <= i < |es| ==> EntryAt(four, i) == es[i])
    && forall i :: |es| <= i < DIR_FILE_PTRS ==> EntryAt(four, i).address == 0
  }

  // -------------------------------------------------------------- the whole disk

  /** File block f with data block b, in blocks that are not free; with the entries es,
      if it is a directory. */
  ghost predicate Holds(d: Disk, ls: Lists, f: nat, b: nat, es: Option<seq<Entry>>) {
    && IsBlock(d, f) && IsBlock(d, b) && !Free(ls, f) && !Free(ls, b)
    && IsFile(At(d, f), b) && (es.Some? ==> IsDir(At(d, b), es.value))
  }

  function Listing(t: Tree, f: nat): Option<seq<Entry>> { if f in t.dirs then Some(t.dirs[f]) else None }

  ghost predicate OnDisk(d: Disk, ls: Lists, t: Tree) {
    forall f :: f in t.data ==> Holds(d, ls, f, t.data[f], Listing(t, f))
  }

  ghost predicate FsOk(d: Disk, ls: Lists, t: Tree) {
    Good(d, ls) && TreeOk(t) && OnDisk(d, ls, t)
  }

  /** Every sector of a block that was not free, other than the superblock and the blocks
      of xs, is as it was. */
  ghost predicate Kept(d: Disk, ls: Lists, e: Disk, xs: set<nat>) {
    |e| == |d| && forall s: nat :: s < |d| && s != 1 && !Free(ls, s / 4) && s / 4 !in xs ==> e[s] == d[s]
  }

  lemma KeptAt(d: Disk, ls: Lists, e: Disk, xs: set<nat>, b: nat)
    requires Kept(d, ls, e, xs) && IsBlock(d, b) && !Free(ls, b) && b !in xs
    ensures IsBlock(e, b) && At(e, b) == At(d, b)
  {
    hide Free;
    forall j | 0 <= j < 4
      ensures At(e, b)[j] == At(d, b)[j]
    {
      assert (4 * b + j) / 4 == b;
    }
  }

  /** No more is free than was. */
  ghost predicate Fewer(ls: Lists, ms: Lists) { forall x: nat :: Free(ms, x) ==> Free(ls, x) }

  lemma KeptThen(d: Disk, ls: Lists, e: Disk, xs: set<nat>, ms: Lists, g: Disk, ys: set<nat>)
    requires Kept(d, ls, e, xs) && Kept(e, ms, g, ys) && Fewer(ls, ms)
    requires forall y :: y in ys ==> y in xs || Free(ls, y)
    ensures Kept(d, ls, g, xs)
  {
    hide Free;
  }

  lemma WriteKept(d: Disk, ls: Lists, b: nat, four: Four)
    requires IsBlock(d, b)
    ensures Kept(d, ls, WriteBlock(d, b, four), {b})
  {
    hide Free;
  }

  lemma MallocKept(d: Disk, ls: Lists)
    requires Good(d, ls)
    ensures Kept(d, ls, MallocDisk(d, ls, 0), {}) && Fewer(ls, MallocLists(d, ls, 0))
  {
    hide MallocDisk, MallocLists, Good, Free, MallocBase;
    GoodShape(d, ls);
    MallocGood(d, ls, 0);
    forall s: nat | s < |d| && s != 1 && !Free(ls, s / 4)
      ensures MallocDisk(d, ls, 0)[s] == d[s]
    {
      MallocTouches(d, ls, 0, s);
    }
    MallocFails(d, ls, 0);
    if MallocBase(d, 0) != 0 { MallocOne(d, ls); }
  }

  /** Writing a block that is not free leaves the lists alone. */
  lemma WriteGood(d: Disk, ls: Lists, b: nat, four: Four)
    requires Good(d, ls) && IsBlock(d, b) && !Free(ls, b)
    ensures Good(WriteBlock(d, b, four), ls)
  {
    var e := WriteBlock(d, b, four);
    forall k | 0 <= k < ORDERS
      ensures Chain(e, Head(e, k), ls[k])
    {
      forall i | 0 <= i < |ls[k]| && 4 * ls[k][i] < |d|
        ensures e[4 * ls[k][i]] == d[4 * ls[k][i]]
      {
        assert InRun(ls[k][i], k, ls[k][i]);
      }
      ChainKept(d, e, Head(d, k), ls[k]);
    }
    hide Chain, Clear, Fits, WriteBlock;
    FitsSame(d, e);
  }

  /** mallocBlock leaves every block alone that is not free. */
  lemma MallocSame(d: Disk, ls: Lists, b: nat)
    requires Good(d, ls) && IsBlock(d, b) && !Free(ls, b)
    ensures var e := MallocDisk(d, ls, 0);
            IsBlock(e, b) && At(e, b) == At(d, b)
  {
    MallocKept(d, ls);
    KeptAt(d, ls, MallocDisk(d, ls, 0), {}, b);
  }

  /** One block, for a file or its data. */
  lemma MallocOne(d: Disk, ls: Lists)
    requires Good(d, ls) && MallocBase(d, 0) != 0
    ensures var b, ms := MallocBase(d, 0), MallocLists(d, ls, 0);
            IsBlock(d, b) && Free(ls, b) && forall x :: Free(ms, x) <==> Free(ls, x) && x != b
  {
    var b, ms := MallocBase(d, 0), MallocLists(d, ls, 0);
    MallocGood(d, ls, 0);
    forall x
      ensures Free(ms, x) <==> Free(ls, x) && x != b
    {
      MallocFree(d, ls, 0, x);
      assert InRun(b, 0, x) <==> x == b;
    }
    MallocFree(d, ls, 0, b);
  }

  /** It leaves every file as it is, and hands out no block of one. */
  lemma MallocHolds(d: Disk, ls: Lists, t: Tree)
    requires FsOk(d, ls, t)
    ensures FsOk(MallocDisk(d, ls, 0), MallocLists(d, ls, 0), t)
    ensures MallocBase(d, 0) != 0 ==> Unused(t, MallocBase(d, 0))
  {
    var e, ms, b := MallocDisk(d, ls, 0), MallocLists(d, ls, 0), MallocBase(d, 0);
    MallocGood(d, ls, 0);
    if b == 0 {
      MallocFails(d, ls, 0);
    } else {
      MallocOne(d, ls);
      hide MallocDisk, MallocLists, Good, Free, IsFile, IsDir, TreeOk, At;
      forall f | f in t.data
        ensures Holds(e, ms, f, t.data[f], Listing(t, f)) && b != f && b != t.data[f]
      {
        assert Holds(d, ls, f, t.data[f], Listing(t, f));
        MallocSame(d, ls, f);
        MallocSame(d, ls, t.data[f]);
      }
    }
  }

  /** Writing a block no file has. */
  lemma WriteHolds(d: Disk, ls: Lists, t: Tree, b: nat, four: Four)
    requires FsOk(d, ls, t) && IsBlock(d, b) && !Free(ls, b) && Unused(t, b)
    ensures FsOk(WriteBlock(d, b, four), ls, t)
  {
    var e := WriteBlock(d, b, four);
    WriteGood(d, ls, b, four);
    hide WriteBlock, Good, Free, IsFile, IsDir, TreeOk, At;
    forall f | f in t.data
      ensures Holds(e, ls, f, t.data[f], Listing(t, f))
    {
      assert Holds(d, ls, f, t.data[f], Listing(t, f));
      WriteOne(d, b, four, f);
      WriteOne(d, b, four, t.data[f]);
    }
  }

  /** A new file's entry behind the last one of directory f. */
  lemma LinkHolds(d: Disk, ls: Lists, t: Tree, f: nat, e: Entry, db: nat)
    requires FsOk(d, ls, t) && f in t.dirs && |t.dirs[f]| < DIR_FILE_PTRS
    requires Unused(t, e.address) && Unused(t, db) && e.address != db && Holds(d, ls, e.address, db, Some([]))
    requires IsBlock(d, t.data[f])
    ensures FsOk(WriteBlock(d, t.data[f], WithEntry(At(d, t.data[f]), |t.dirs[f]|, e)), ls, Added(t, f, e.hash, e.address, db))
  {
    var b, n := t.data[f], |t.dirs[f]|;
    var four := WithEntry(At(d, b), n, e);
    assert Holds(d, ls, f, b, Listing(t, f));
    LinkedDir(At(d, b), t.dirs[f], e);
    hide WithEntry, EntryAt, IsDir, At, WriteBlock;
    AddedOk(t, f, e.hash, e.address, db);
    WriteGood(d, ls, b, four);
    LinkedOnDisk(d, ls, t, f, e, db, four);
  }

  lemma LinkedOnDisk(d: Disk, ls: Lists, t: Tree, f: nat, e: Entry, db: nat, four: Four)
    requires TreeOk(t) && OnDisk(d, ls, t) && f in t.dirs && IsBlock(d, t.data[f])
    requires Unused(t, e.address) && Unused(t, db) && e.address != db && Holds(d, ls, e.address, db, Some([]))
    requires IsDir(four, t.dirs[f] + [e])
    ensures OnDisk(WriteBlock(d, t.data[f], four), ls, Added(t, f, e.hash, e.address, db))
  {
    var b, u := t.data[f], Added(t, f, e.hash, e.address, db);
    var d2 := WriteBlock(d, b, four);
    BlocksDiffer(t, f);
    hide WriteBlock, IsFile, IsDir, At, Free, Holds, TreeOk, IsBlock;
    forall g | g in u.data
      ensures Holds(d2, ls, g, u.data[g], Listing(u, g))
    {
      if g == e.address {
        WrittenHolds(d, ls, b, four, g, db, Some([]));
      } else if g == f {
        assert Holds(d, ls, f, b, Listing(t, f));
        WrittenDir(d, ls, four, f, b, Listing(t, f), Some(u.dirs[f]));
      } else {
        assert Holds(d, ls, g, t.data[g], Listing(t, g));
        WrittenHolds(d, ls, b, four, g, t.data[g], Listing(t, g));
      }
    }
  }

  lemma BlocksDiffer(t: Tree, f: nat)
    requires TreeOk(t) && f in t.data
    ensures t.dirs.Keys <= t.data.Keys && forall g :: g in t.data ==> g != t.data[f] && (g != f ==> t.data[g] != t.data[f])
  {
  }

  lemma WrittenHolds(d: Disk, ls: Lists, c: nat, four: Four, f: nat, b: nat, es: Option<seq<Entry>>)
    requires Holds(d, ls, f, b, es) && IsBlock(d, c) && c != f && c != b
    ensures Holds(WriteBlock(d, c, four), ls, f, b, es)
  {
    hide WriteBlock, IsFile, IsDir, At, Free;
    WriteOne(d, c, four, f);
    WriteOne(d, c, four, b);
  }

  lemma WrittenDir(d: Disk, ls: Lists, four: Four, f: nat, b: nat, es: Option<seq<Entry>>, fs: Option<seq<Entry>>)
    requires Holds(d, ls, f, b, es) && b != f && (fs.Some? ==> IsDir(four, fs.value))
    ensures Holds(WriteBlock(d, b, four), ls, f, b, fs)
  {
    hide WriteBlock, IsFile, IsDir, At, Free;
    WriteOne(d, b, four, f);
    WriteOne(d, b, four, b);
  }

  lemma LinkedDir(four: Four, es: seq<Entry>, e: Entry)
    requires IsDir(four, es) && |es| < DIR_FILE_PTRS
    ensures IsDir(WithEntry(four, |es|, e), es + [e])
  {
    forall j | 0 <= j < DIR_FILE_PTRS
      ensures EntryAt(WithEntry(four, |es|, e), j) == if j == |es| then e else EntryAt(four, j)
    {
      EntrySet(four, |es|, e, j);
    }
  }

  // ------------------------------------------------------------------- names

  type u8 = x: int | 0 <= x < 256

  /** stringHash. */
  function Hash(name: seq<u8>): u32 {
    if name == [] then 0 else Wrap(Hash(name[..|name| - 1]) * 31 + name[|name| - 1])
  }

  function Power31(n: nat): nat { if n == 0 then 1 else 31 * Power31(n - 1) }

  /** The sum of the bytes times powers of 31, the last one's being 1. */
  function HashSum(name: seq<u8>): nat {
    if name == [] then 0 else name[0] * Power31(|name| - 1) + HashSum(name[1..])
  }

  lemma {:induction false} SumNext(name: seq<u8>, c: u8)
    ensures HashSum(name + [c]) == HashSum(name) * 31 + c
  {
    if name == [] {
      assert (name + [c])[1..] == [];
      assert Power31(0) == 1;
    } else {
      SumNext(name[1..], c);
      assert (name + [c])[1..] == name[1..] + [c];
      Shifted(name[0], Power31(|name| - 1));
    }
  }

  lemma Shifted(c: u8, p: nat)
    ensures c * (31 * p) == (c * p) * 31
  {
  }

  /** The hash is that sum in 32 bits. */
  lemma {:induction false} HashIs(name: seq<u8>)
    ensures Hash(name) == HashSum(name) % WORD
  {
    if name != [] {
      var n := |name| - 1;
      HashIs(name[..n]);
      SumNext(name[..n], name[n]);
      assert name[..n] + [name[n]] == name;
      ModTimes(HashSum(name[..n]), name[n]);
    }
  }

  lemma ModTimes(x: nat, c: u8)
    ensures (x % WORD * 31 + c) % WORD == (x * 31 + c) % WORD
  {
    var q, r := x / WORD, x % WORD;
    assert x * 31 + c == WORD * (31 * q) + (r * 31 + c);
    ModPeriod(31 * q, r * 31 + c);
  }

  lemma ModPeriod(q: int, r: int)
    ensures (WORD * q + r) % WORD == r % WORD
  {
  }

  /** Names of the same length that differ in one byte have different hashes. */
  lemma {:induction false} HashTells(a: seq<u8>, b: seq<u8>, i: nat)
    requires |a| == |b| && i < |a| && a[i] != b[i]
    requires forall j :: 0 <= j < |a| && j != i ==> a[j] == b[j]
    ensures Hash(a) != Hash(b)
  {
    var n := |a| - 1;
    if i == n {
      assert a[..n] == b[..n];
      LastTells(Hash(a[..n]), a[n], b[n]);
    } else {
      HashTells(a[..n], b[..n], i);
      NextTells(Hash(a[..n]), Hash(b[..n]), a[n]);
    }
  }

  lemma LastTells(h: u32, c: u8, e: u8)
    requires c != e
    ensures Wrap(h * 31 + c) != Wrap(h * 31 + e)
  {
  }

  /** 31 is odd, so no two words have the same product with it. */
  lemma NextTells(h: u32, k: u32, c: u8)
    requires h != k
    ensures Wrap(h * 31 + c) != Wrap(k * 31 + c)
  {
    var x, y := h * 31 + c, k * 31 + c;
    if x % WORD == y % WORD { NoMultiple(h - k, x / WORD - y / WORD); }
  }

  lemma NoMultiple(d: int, q: int)
    requires 31 * d == WORD * q && -WORD < d < WORD
    ensures d == 0
  {
    assert 4 * q == 31 * (d - 138_547_332 * q);
  }

  /** Byte k of a word, the lowest first. */
  function Scale(k: nat): nat
    requires k < 4
  {
    if k == 0 then 1 else if k == 1 then 0x100 else if k == 2 then 0x1_0000 else 0x100_0000
  }

  function Byte(w: u32, k: nat): u8
    requires k < 4
  {
    w / Scale(k) % 256
  }

  function PutByte(w: u32, k: nat, c: u8): (r: u32)
    requires k < 4
    ensures forall j :: 0 <= j < 4 ==> Byte(r, j) == if j == k then c else Byte(w, j)
  {
    PutByteFacts(w, k, c);
    w - Byte(w, k) * Scale(k) + c * Scale(k)
  }

  lemma PutByteFacts(w: u32, k: nat, c: u8)
    requires k < 4
    ensures var r := w - Byte(w, k) * Scale(k) + c * Scale(k);
            0 <= r < WORD && forall j :: 0 <= j < 4 ==> r / Scale(j) % 256 == if j == k then c else Byte(w, j)
  {
    hide Byte;
    Bytes(w);
    var t: seq<int> := [Byte(w, 0), Byte(w, 1), Byte(w, 2), Byte(w, 3)][k := c];
    var r := w - Byte(w, k) * Scale(k) + c * Scale(k);
    assert r == t[0] + 0x100 * t[1] + 0x1_0000 * t[2] + 0x100_0000 * t[3];
    FourBytes(t[0], t[1], t[2], t[3]);
    forall j | 0 <= j < 4
      ensures r / Scale(j) % 256 == t[j]
    {
    }
  }

  lemma Bytes(w: u32)
    ensures w == Byte(w, 0) + 0x100 * (Byte(w, 1) as int) + 0x1_0000 * (Byte(w, 2) as int) + 0x100_0000 * (Byte(w, 3) as int)
  {
    var p, q, r := w / 0x100, w / 0x1_0000, w / 0x100_0000;
    assert w == 0x100 * p + Byte(w, 0);
    assert q == p / 0x100;
    assert p == 0x100 * q + Byte(w, 1);
    assert r == q / 0x100;
    assert q == 0x100 * r + Byte(w, 2);
    assert r < 256 && r == Byte(w, 3);
  }

  lemma FourBytes(a: int, b: int, e: int, f: int)
    requires 0 <= a < 256 && 0 <= b < 256 && 0 <= e < 256 && 0 <= f < 256
    ensures var w := a + 0x100 * b + 0x1_0000 * e + 0x100_0000 * f;
            0 <= w < WORD && w % 256 == a && w / 0x100 % 256 == b && w / 0x1_0000 % 256 == e && w / 0x100_0000 % 256 == f
  {
    var w := a + 0x100 * b + 0x1_0000 * e + 0x100_0000 * f;
    LowByte(a, b + 0x100 * e + 0x1_0000 * f);
    LowByte(b, e + 0x100 * f);
    LowByte(e, f);
    assert w / 0x1_0000 == w / 0x100 / 0x100;
    assert w / 0x100_0000 == w / 0x1_0000 / 0x100;
  }

  lemma LowByte(a: int, k: int)
    requires 0 <= a < 256
    ensures (a + 256 * k) % 256 == a && (a + 256 * k) / 256 == k
  {
  }

  function Peek(sec: Sector, i: nat): u8
    requires i < 512
  {
    Byte(sec[i / 4], i % 4)
  }

  function Poke(sec: Sector, i: nat, c: u8): Sector
    requires i < 512
  {
    sec[i / 4 := PutByte(sec[i / 4], i % 4, c)]
  }

  /** strcpy, n bytes on. */
  function Copied(sec: Sector, name: seq<u8>, n: nat): Sector
    requires n <= |name| < 512
  {
    if n == 0 then sec else Poke(Copied(sec, name, n - 1), n - 1, name[n - 1])
  }

  lemma {:induction false} CopiedReads(sec: Sector, name: seq<u8>, n: nat, j: nat)
    requires n <= |name| < 512 && j < 512
    ensures Peek(Copied(sec, name, n), j) == if j < n then name[j] else Peek(sec, j)
  {
    if n > 0 {
      CopiedReads(sec, name, n - 1, j);
      assert (n - 1) / 4 == j / 4 && (n - 1) % 4 == j % 4 ==> j == n - 1;
    }
  }

  const FILE_NAME_SIZE: nat := 256
  const NAME_HASH: nat := 64

  /** The file block that createFileBlock writes. */
  function FileBlock(name: seq<u8>, db: u32): Four
    requires |name| < FILE_NAME_SIZE
  {
    [NameSector(name)[NAME_HASH := Hash(name)], Zero(), Zero()[0 := db][1 := 1], Zero()]
  }

  function Blank(): Four { [Zero(), Zero(), Zero(), Zero()] }

  /** It says so: the name, ended by 0, its hash, and the one data block. */
  lemma FileBlockSays(name: seq<u8>, db: u32)
    requires |name| < FILE_NAME_SIZE
    ensures var four := FileBlock(name, db);
            && (forall j :: 0 <= j < |name| ==> Peek(four[0], j) == name[j]) && Peek(four[0], |name|) == 0
            && four[0][NAME_HASH] == Hash(name) && IsFile(four, db)
  {
    hide Byte, PutByte, Hash, Copied, Peek, IsFile;
    NameReads(name);
    OneExtent(FileBlock(name, db), db);
    forall j | 0 <= j <= |name|
      ensures Peek(FileBlock(name, db)[0], j) == Peek(NameSector(name), j)
    {
      NameOnly(name, j);
    }
  }

  lemma NameOnly(name: seq<u8>, j: nat)
    requires |name| < FILE_NAME_SIZE && j <= |name|
    ensures Peek(NameSector(name)[NAME_HASH := Hash(name)], j) == Peek(NameSector(name), j)
  {
    hide Byte, NameSector, Hash;
  }

  function NameSector(name: seq<u8>): Sector
    requires |name| < FILE_NAME_SIZE
  {
    Poke(Copied(Zero(), name, |name|), |name|, 0)
  }

  lemma NameReads(name: seq<u8>)
    requires |name| < FILE_NAME_SIZE
    ensures forall j :: 0 <= j <= |name| ==> Peek(NameSector(name), j) == if j < |name| then name[j] else 0
  {
    hide Byte, PutByte, Copied;
    forall j | 0 <= j <= |name|
      ensures Peek(NameSector(name), j) == if j < |name| then name[j] else 0
    {
      CopiedReads(Zero(), name, |name|, j);
      assert |name| / 4 == j / 4 && |name| % 4 == j % 4 ==> j == |name|;
    }
  }

  lemma OneExtent(four: Four, db: u32)
    requires four[2] == Zero()[0 := db][1 := 1]
    ensures IsFile(four, db)
  {
    assert Pointer(four, 0) == Extent(db, 1) && Pointer(four, 1).size == 0;
    assert Extents(four, 1) == [];
  }

  lemma BlankIsDir()
    ensures IsDir(Blank(), [])
  {
  }

  /** Different names may share a hash. */
  lemma HashCollides()
    ensures Hash([65, 97]) == Hash([66, 66])
  {
    assert Hash([65, 97][..1]) == Hash([65]) == Wrap(Hash([65][..0]) * 31 + 65) == 65;
    assert Hash([66, 66][..1]) == Hash([66]) == Wrap(Hash([66][..0]) * 31 + 66) == 66;
  }

  // ---------------------------------------------------------- createFileBlock

  ghost function CreatedDisk(d: Disk, ls: Lists, name: seq<u8>): Disk
    requires Good(d, ls) && |name| < FILE_NAME_SIZE
  {
    if MallocBase(d, 0) == 0 then d
    else
      MallocGood(d, ls, 0);
      var d1, ls1 := MallocDisk(d, ls, 0), MallocLists(d, ls, 0);
      MallocGood(d1, ls1, 0);
      var db := MallocBase(d1, 0);
      WriteBlock(WriteBlock(MallocDisk(d1, ls1, 0), db, Blank()), MallocBase(d, 0), FileBlock(name, db))
  }

  ghost function CreatedLists(d: Disk, ls: Lists): Lists
    requires Good(d, ls)
  {
    if MallocBase(d, 0) == 0 then ls
    else
      MallocGood(d, ls, 0);
      MallocLists(MallocDisk(d, ls, 0), MallocLists(d, ls, 0), 0)
  }

  lemma {:induction false} TotalZero(ls: Lists, n: nat)
    requires n <= |ls|
    ensures Total(ls, n) == 0 <==> forall k :: 0 <= k < n ==> ls[k] == []
  {
    if n > 0 {
      TotalZero(ls, n - 1);
      assert Weight(n - 1, ls[n - 1]) == 0 <==> ls[n - 1] == [];
    }
  }

  /** A block is to be had as long as there is one. */
  lemma MallocHas(d: Disk, ls: Lists)
    requires Good(d, ls)
    ensures MallocBase(d, 0) == 0 <==> Total(ls, ORDERS) == 0
    ensures MallocBase(d, 0) != 0 ==> Total(MallocLists(d, ls, 0), ORDERS) == Total(ls, ORDERS) - 1
  {
    MallocFails(d, ls, 0);
    TotalZero(ls, ORDERS);
    MallocSkew(d, ls, 0);
  }

  /** The superblock comes through, but for its free lists, unless exactly one block
      is left: then it is blanked. */
  lemma CreateKeepsSuper(d: Disk, ls: Lists, name: seq<u8>)
    requires Good(d, ls) && |name| < FILE_NAME_SIZE
    ensures var e := CreatedDisk(d, ls, name);
            && |e| == |d|
            && (Total(ls, ORDERS) != 1 ==> SameSuper(d, e))
            && (Total(ls, ORDERS) == 1 ==> e[1] == Zero())
            && (Total(ls, ORDERS) == 0 ==> e == d)
  {
    hide Zero, Good, MallocDisk, MallocLists, Total, FileBlock, WriteBlock, Free, Fits;
    GoodShape(d, ls);
    MallocHas(d, ls);
    if MallocBase(d, 0) != 0 {
      MallocGood(d, ls, 0);
      var d1, ls1 := MallocDisk(d, ls, 0), MallocLists(d, ls, 0);
      MallocGood(d1, ls1, 0);
      MallocHas(d1, ls1);
      SuperKept(d, ls);
      SuperKept(d1, ls1);
      var db := MallocBase(d1, 0);
      MallocRoom(d, ls);
      MallocRoom(d1, ls1);
      TwoWritten(MallocDisk(d1, ls1, 0), db, Blank(), MallocBase(d, 0), FileBlock(name, db));
    }
  }

  lemma MallocRoom(d: Disk, ls: Lists)
    requires Good(d, ls)
    ensures |d| > 1 && (MallocBase(d, 0) != 0 ==> 4 * (MallocBase(d, 0) + 1) <= |d|)
  {
    MallocGood(d, ls, 0);
  }

  lemma TwoWritten(d: Disk, a: nat, x: Four, b: nat, y: Four)
    requires 4 * (a + 1) <= |d| && 0 < b && 4 * (b + 1) <= |d|
    ensures WriteBlock(WriteBlock(d, a, x), b, y)[1] == if a == 0 then x[1] else d[1]
  {
  }

  lemma SuperKept(d: Disk, ls: Lists)
    requires Good(d, ls)
    ensures |MallocDisk(d, ls, 0)| == |d| && SameSuper(d, MallocDisk(d, ls, 0))
  {
    MallocGood(d, ls, 0);
    forall k, i | 0 <= k < |ls| && 0 <= i < |ls[k]|
      ensures !InRun(ls[k][i], k, 0)
    {
      assert Fits(d, ls[k][i], k);
    }
    MallocTouches(d, ls, 0, 0);
  }

  /** File block blk is a file of that name outside the tree, with the blank data block
      db. */
  ghost predicate NewFile(d: Disk, ls: Lists, t: Tree, name: seq<u8>, blk: nat, db: u32) {
    && |name| < FILE_NAME_SIZE && db != blk && Unused(t, blk) && Unused(t, db)
    && Holds(d, ls, blk, db, Some([])) && At(d, blk) == FileBlock(name, db) && At(d, db) == Blank()
  }

  /** With two blocks left, a file comes of it in blocks that were free; whatever was not
      free, the name and contents of every other file with it, is as it was. */
  lemma CreateHolds(d: Disk, ls: Lists, t: Tree, name: seq<u8>) returns (db: u32)
    requires FsOk(d, ls, t) && |name| < FILE_NAME_SIZE && Total(ls, ORDERS) >= 2
    ensures var e, ms, blk := CreatedDisk(d, ls, name), CreatedLists(d, ls), MallocBase(d, 0);
            && FsOk(e, ms, t) && Total(ms, ORDERS) == Total(ls, ORDERS) - 2
            && SameSuper(d, e) && Kept(d, ls, e, {}) && Fewer(ls, ms)
            && blk != 0 && NewFile(e, ms, t, name, blk, db) && Free(ls, blk) && Free(ls, db)
  {
    MallocHas(d, ls);
    MallocHolds(d, ls, t);
    MallocOne(d, ls);
    CreateKeepsSuper(d, ls, name);
    var d1, ls1, blk := MallocDisk(d, ls, 0), MallocLists(d, ls, 0), MallocBase(d, 0);
    MallocHas(d1, ls1);
    MallocHolds(d1, ls1, t);
    MallocOne(d1, ls1);
    MallocGood(d, ls, 0);
    MallocGood(d1, ls1, 0);
    var d2, ms := MallocDisk(d1, ls1, 0), MallocLists(d1, ls1, 0);
    db := MallocBase(d1, 0);
    WrittenFile(d2, ms, t, name, blk, db);
    hide MallocDisk, MallocLists, MallocBase, WriteBlock, FileBlock, Good, Free, FsOk, NewFile;
    MallocKept(d, ls);
    MallocKept(d1, ls1);
    KeptThen(d, ls, d1, {}, ls1, d2, {});
    WrittenKept(d, ls, d2, ms, blk, FileBlock(name, db), db);
  }

  lemma WrittenKept(d: Disk, ls: Lists, e: Disk, ms: Lists, blk: nat, four: Four, db: nat)
    requires Kept(d, ls, e, {}) && Fewer(ls, ms) && IsBlock(e, blk) && IsBlock(e, db) && Free(ls, blk) && Free(ls, db)
    ensures Kept(d, ls, WriteBlock(WriteBlock(e, db, Blank()), blk, four), {})
  {
    hide WriteBlock, Free;
    WriteKept(e, ms, db, Blank());
    var e1 := WriteBlock(e, db, Blank());
    KeptThen(d, ls, e, {}, ms, e1, {db});
    WriteKept(e1, ms, blk, four);
    KeptThen(d, ls, e1, {}, ms, WriteBlock(e1, blk, four), {blk});
  }

  lemma WrittenFile(d: Disk, ls: Lists, t: Tree, name: seq<u8>, blk: u32, db: u32)
    requires FsOk(d, ls, t) && |name| < FILE_NAME_SIZE
    requires IsBlock(d, blk) && IsBlock(d, db) && blk != db && Unused(t, blk) && Unused(t, db)
    requires !Free(ls, blk) && !Free(ls, db)
    ensures var e := WriteBlock(WriteBlock(d, db, Blank()), blk, FileBlock(name, db));
            FsOk(e, ls, t) && NewFile(e, ls, t, name, blk, db)
  {
    hide WriteBlock, FsOk, At, Free, FileBlock, Unused;
    WriteHolds(d, ls, t, db, Blank());
    WriteOne(d, db, Blank(), blk);
    WriteOne(d, db, Blank(), db);
    var d1 := WriteBlock(d, db, Blank());
    WriteHolds(d1, ls, t, blk, FileBlock(name, db));
    WriteOne(d1, blk, FileBlock(name, db), blk);
    WriteOne(d1, blk, FileBlock(name, db), db);
    FileBlockSays(name, db);
    BlankIsDir();
  }

  // ----------------------------------------------------------------- contents

  /** The file's contents replaced by anything at all: it no longer counts as a directory,
      and everything else stands. */
  lemma OverwrittenOk(d: Disk, ls: Lists, t: Tree, f: nat, four: Four)
    requires FsOk(d, ls, t) && f in t.data && IsBlock(d, t.data[f])
    ensures FsOk(WriteBlock(d, t.data[f], four), ls, t.(dirs := t.dirs - {f}))
  {
    var b, u := t.data[f], t.(dirs := t.dirs - {f});
    var e := WriteBlock(d, b, four);
    assert Holds(d, ls, f, b, Listing(t, f));
    WriteGood(d, ls, b, four);
    BlocksDiffer(t, f);
    ShrunkOk(t, f);
    hide WriteBlock, IsFile, IsDir, At, Free, TreeOk, IsBlock;
    forall g | g in u.data
      ensures Holds(e, ls, g, u.data[g], Listing(u, g))
    {
      assert Holds(d, ls, g, t.data[g], Listing(t, g));
      if g == f {
        WrittenDir(d, ls, four, f, b, Listing(t, f), None);
      } else {
        WrittenHolds(d, ls, b, four, g, t.data[g], Listing(t, g));
      }
    }
  }
}
