// How mkfs cuts a partition into free runs (kernel/driver/filesystem/filesystem.c:206-232)
// and makes its root directory (filesystem.c:234-238).
module FsFormat {
  import opened Options
  import opened Bits
  import opened FsBlocks
  import opened FsTree
  import opened FsDisk

  /** What is between lo and hi is free, but for the s blocks from a on, which are still
      to be cut up. */
  ghost predicate Cutting(ls: Lists, lo: nat, hi: nat, a: nat, s: nat) {
    && lo <= a && a + s <= hi
    && forall x: nat :: Free(ls, x) <==> lo <= x < hi && !(a <= x < a + s)
  }

  /** An aligned run of 2^20 blocks, one order more than there are lists for. */
  ghost predicate Chunk(lo: nat, hi: nat, c: nat) {
    Aligned(c, ORDERS) && lo <= c && c + Pow2(ORDERS) <= hi
  }

  ghost predicate NoChunk(lo: nat, hi: nat) {
    forall c: nat :: !Chunk(lo, hi, c)
  }

  /** No such run has been cut into. */
  ghost predicate ChunksLeft(lo: nat, hi: nat, a: nat, s: nat) {
    forall c: nat :: Chunk(lo, hi, c) ==> a <= c && c + Pow2(ORDERS) <= a + s
  }

  lemma CutStart(ls: Lists, lo: nat, s: nat)
    requires forall x: nat :: !Free(ls, x)
    ensures Cutting(ls, lo, lo + s, lo, s) && ChunksLeft(lo, lo + s, lo, s)
  {
  }

  lemma CutLow(lo: nat, hi: nat, a: nat, s: nat, len: nat)
    requires ChunksLeft(lo, hi, a, s) && len < ORDERS && Aligned(a, len) && BitSet(a, len) && Pow2(len) <= s
    ensures ChunksLeft(lo, hi, a + Pow2(len), s - Pow2(len))
  {
    hide Pow2, Aligned, BitSet;
    forall c: nat | Chunk(lo, hi, c)
      ensures a + Pow2(len) <= c
    {
      AlignedLower(c, ORDERS, len + 1);
      AlignedLower(c, ORDERS, len);
      AlignedStep(a, len);
      AlignedGap(a, c, len);
    }
  }

  lemma CutHigh(lo: nat, hi: nat, a: nat, s: nat, len: nat)
    requires ChunksLeft(lo, hi, a, s) && len < ORDERS && Aligned(a, len + 1)
    requires Aligned(s, len) && BitSet(s, len) && Pow2(len) <= s
    ensures ChunksLeft(lo, hi, a, s - Pow2(len))
  {
    hide Pow2, Aligned, BitSet;
    var e := a + s;
    AlignedStep(s, len);
    AlignedStep(a, len);
    AlignedSum(a, s, len);
    if Aligned(e, len + 1) { AlignedSum(e, a, len + 1); }
    forall c: nat | Chunk(lo, hi, c)
      ensures c + Pow2(ORDERS) + Pow2(len) <= e
    {
      AlignedSelf(ORDERS);
      AlignedSum(c, Pow2(ORDERS), ORDERS);
      AlignedLower(c + Pow2(ORDERS), ORDERS, len + 1);
      AlignedLower(c + Pow2(ORDERS), ORDERS, len);
      AlignedGap(c + Pow2(ORDERS), e, len);
    }
  }

  /** Runs that share no block do not overlap. */
  lemma ClearFromFree(ls: Lists, b: nat, k: nat)
    requires forall x :: InRun(b, k, x) ==> !Free(ls, x)
    ensures ClearOf(ls, b, k)
  {
    forall m, j | 0 <= m < |ls| && 0 <= j < |ls[m]|
      ensures Clear(b, k, ls[m][j], m)
    {
      var c := ls[m][j];
      assert InRun(c, m, c) && Free(ls, c);
      if c <= b < c + Pow2(m) {
        assert InRun(b, k, b) && InRun(c, m, b);
        assert Free(ls, b);
      }
    }
  }

  /** After the last order, nothing is left over unless there is a run of 2^20 blocks,
      for which there is no list. */
  lemma LeftOver(lo: nat, hi: nat, a: nat, s: nat)
    requires ChunksLeft(lo, hi, a, s) && lo <= a && a + s <= hi
    requires s == 0 || (Aligned(a, ORDERS) && Aligned(s, ORDERS))
    ensures s == 0 <==> NoChunk(lo, hi)
  {
    if s > 0 {
      AlignedPositive(s, ORDERS);
      assert Chunk(lo, hi, a);
    }
  }

  /** Every partition of 4 GB or more whose kernel takes less than half of that holds one. */
  lemma BigChunk(lo: nat, hi: nat)
    requires lo <= 0x10_0000 && hi >= 0x20_0000
    ensures !NoChunk(lo, hi)
  {
    Pow2Of29();
    AlignedSelf(ORDERS);
    assert Chunk(lo, hi, Pow2(ORDERS));
  }

  // ------------------------------------------------------------------ the root

  /** A first file on a disk without any. */
  lemma CreateFirst(d: Disk, ls: Lists, name: seq<u8>)
    requires Good(d, ls) && |name| < FILE_NAME_SIZE && Total(ls, ORDERS) >= 2
    ensures var e, ms, blk := CreatedDisk(d, ls, name), CreatedLists(d, ls), MallocBase(d, 0);
            && Good(e, ms) && 0 < blk < WORD && |e| == |d| > 1
            && exists db: u32 :: db != blk && db != 0 && Holds(e, ms, blk, db, Some([]))
  {
    MallocHas(d, ls);
    MallocOne(d, ls);
    MallocGood(d, ls, 0);
    var d1, ls1, blk := MallocDisk(d, ls, 0), MallocLists(d, ls, 0), MallocBase(d, 0);
    MallocHas(d1, ls1);
    MallocOne(d1, ls1);
    MallocGood(d1, ls1, 0);
    var db := MallocBase(d1, 0);
    FirstWritten(MallocDisk(d1, ls1, 0), MallocLists(d1, ls1, 0), name, blk, db);
  }

  lemma FirstWritten(d: Disk, ls: Lists, name: seq<u8>, blk: u32, db: u32)
    requires Good(d, ls) && |name| < FILE_NAME_SIZE
    requires IsBlock(d, blk) && IsBlock(d, db) && blk != db && !Free(ls, blk) && !Free(ls, db)
    ensures var e := WriteBlock(WriteBlock(d, db, Blank()), blk, FileBlock(name, db));
            Good(e, ls) && Holds(e, ls, blk, db, Some([]))
  {
    hide WriteBlock, Good, At, Free, FileBlock;
    WriteGood(d, ls, db, Blank());
    WriteOne(d, db, Blank(), blk);
    WriteOne(d, db, Blank(), db);
    var d1 := WriteBlock(d, db, Blank());
    WriteGood(d1, ls, blk, FileBlock(name, db));
    WriteOne(d1, blk, FileBlock(name, db), blk);
    WriteOne(d1, blk, FileBlock(name, db), db);
    FileBlockSays(name, db);
    BlankIsDir();
  }

  function WithRoot(d: Disk, root: u32): Disk
    requires |d| > 1
  {
    d[1 := d[1][ROOT := root]]
  }

  function RootTree(root: nat, db: nat): Tree { Tree(root, map[root := db], map[root := []]) }

  /** Its number in the superblock makes it a file system of one empty directory. */
  lemma RootHolds(d: Disk, ls: Lists, root: u32, db: u32)
    requires Good(d, ls) && 0 < root && db != root && db != 0 && Holds(d, ls, root, db, Some([]))
    ensures FsOk(WithRoot(d, root), ls, RootTree(root, db))
  {
    var e := WithRoot(d, root);
    forall k | 0 <= k < ORDERS
      ensures Chain(e, Head(e, k), ls[k])
    {
      ChainKept(d, e, Head(d, k), ls[k]);
    }
    FitsSame(d, e);
    assert At(e, root) == At(d, root) && At(e, db) == At(d, db);
  }
}
