// The block allocator of the file system (kernel/driver/filesystem/filesystem.c:284-324)
// on the contents of the disk: twenty free lists, one for each power of two, with the
// links in the first words of the free blocks.
module FsBlocks {
  import opened Bits

  /** 512 bytes. A block is four sectors. */
  type Sector = s: seq<u32> | |s| == 128 witness seq(128, _ => 0)
  type Disk = seq<Sector>

  const ORDERS: nat := 20
  /** Words of the superblock, which is sector 1. */
  const SIZE: nat := 2
  const ROOT: nat := 3
  const FREE_SIZE: nat := 4
  const FREE_BLOCK: nat := 5

  function Head(d: Disk, k: nat): u32
    requires |d| > 1 && k < ORDERS
  {
    d[1][FREE_BLOCK + k]
  }

  function FreeSize(d: Disk): u32
    requires |d| > 1
  {
    d[1][FREE_SIZE]
  }

  /** freeBlock: the superblock is still in the buffer when the link is written. */
  function Freed(d: Disk, base: u32, len: nat): (e: Disk)
    requires 0 < base && 4 * base < |d| && len < ORDERS
    ensures |e| == |d|
  {
    var sb := d[1][FREE_SIZE := Wrap(FreeSize(d) + Pow2(len))][FREE_BLOCK + len := base];
    d[1 := sb][4 * base := sb[0 := Head(d, len)]]
  }

  /** The head of list k leaves it. */
  function Taken(d: Disk, k: nat): (e: Disk)
    requires |d| > 1 && k < ORDERS && 4 * Head(d, k) < |d|
    ensures |e| == |d|
  {
    d[1 := d[1][FREE_BLOCK + k := d[4 * Head(d, k)][0]][FREE_SIZE := Wrap(FreeSize(d) - Pow2(k))]]
  }

  /** The upper halves of a run of order l2 at rt go back, down to order len. */
  function SplitDown(d: Disk, rt: u32, len: nat, l2: nat): (e: Disk)
    requires l2 <= ORDERS && |d| > 1 && 4 * (rt + Pow2(l2)) <= |d| <= WORD
    ensures |e| == |d|
    decreases l2
  {
    if l2 <= len then d else SplitDown(Freed(d, rt + Pow2(l2 - 1), l2 - 1), rt, len, l2 - 1)
  }

  // ------------------------------------------------------------------- lists

  type Lists = seq<seq<nat>>

  /** The list l hangs from head, each run's link giving the next, the last one's 0. */
  ghost predicate Chain(d: Disk, head: nat, l: seq<nat>)
    decreases |l|
  {
    if l == [] then head == 0
    else head == l[0] && 0 < 4 * l[0] < |d| && Chain(d, d[4 * l[0]][0], l[1..])
  }

  ghost predicate Threaded(d: Disk, ls: Lists) {
    |d| > 1 && |ls| == ORDERS && forall k :: 0 <= k < ORDERS ==> Chain(d, Head(d, k), ls[k])
  }

  /** The run of order k at b is on the disk, clear of block 0. */
  predicate Fits(d: Disk, b: nat, k: nat) { 0 < b && 4 * (b + Pow2(k)) <= |d| <= WORD }

  predicate Clear(b: nat, k: nat, c: nat, m: nat) { b + Pow2(k) <= c || c + Pow2(m) <= b }

  ghost predicate Inside(d: Disk, ls: Lists) {
    forall k, i :: 0 <= k < |ls| && 0 <= i < |ls[k]| ==> Fits(d, ls[k][i], k)
  }

  /** No two runs of the lists overlap; none is listed twice. */
  ghost predicate Apart(ls: Lists) {
    forall k, i, m, j ::
      0 <= k < |ls| && 0 <= i < |ls[k]| && 0 <= m < |ls| && 0 <= j < |ls[m]| && !(k == m && i == j) ==>
        Clear(ls[k][i], k, ls[m][j], m)
  }

  ghost predicate Good(d: Disk, ls: Lists) {
    Threaded(d, ls) && Inside(d, ls) && Apart(ls)
  }

  /** A run clear of everything free. */
  ghost predicate ClearOf(ls: Lists, b: nat, k: nat) {
    forall m, j :: 0 <= m < |ls| && 0 <= j < |ls[m]| ==> Clear(b, k, ls[m][j], m)
  }

  /** Block x is free. */
  ghost predicate Free(ls: Lists, x: nat) {
    exists k, i :: 0 <= k < |ls| && 0 <= i < |ls[k]| && InRun(ls[k][i], k, x)
  }

  predicate InRun(b: nat, k: nat, x: nat) { b <= x < b + Pow2(k) }

  lemma {:induction false} ChainKept(d: Disk, e: Disk, head: nat, l: seq<nat>)
    requires Chain(d, head, l) && |e| == |d|
    requires forall i :: 0 <= i < |l| && 4 * l[i] < |d| ==> e[4 * l[i]] == d[4 * l[i]]
    ensures Chain(e, head, l)
    decreases |l|
  {
    if l != [] {
      assert forall i :: 0 <= i < |l[1..]| ==> l[1..][i] == l[i + 1];
      ChainKept(d, e, d[4 * l[0]][0], l[1..]);
    }
  }

  function Pushed(ls: Lists, k: nat, b: nat): Lists
    requires k < |ls|
  {
    ls[k := [b] + ls[k]]
  }

  function Popped(ls: Lists, k: nat): Lists
    requires k < |ls| && ls[k] != []
  {
    ls[k := ls[k][1..]]
  }

  lemma FreedThreads(d: Disk, ls: Lists, base: u32, len: nat)
    requires Good(d, ls) && len < ORDERS && Fits(d, base, len) && ClearOf(ls, base, len)
    ensures Threaded(Freed(d, base, len), Pushed(ls, len, base))
  {
    var e := Freed(d, base, len);
    forall k | 0 <= k < ORDERS
      ensures Chain(e, Head(d, k), ls[k])
    {
      forall i | 0 <= i < |ls[k]| && 4 * ls[k][i] < |d|
        ensures e[4 * ls[k][i]] == d[4 * ls[k][i]]
      {
        assert Clear(base, len, ls[k][i], k);
      }
      ChainKept(d, e, Head(d, k), ls[k]);
    }
    assert Pushed(ls, len, base)[len][1..] == ls[len];
  }

  /** freeBlock puts one run in front of its list. */
  lemma FreedGood(d: Disk, ls: Lists, base: u32, len: nat)
    requires Good(d, ls) && len < ORDERS && Fits(d, base, len) && ClearOf(ls, base, len)
    ensures Good(Freed(d, base, len), Pushed(ls, len, base))
  {
    FreedThreads(d, ls, base, len);
    var e, t := Freed(d, base, len), Pushed(ls, len, base);
    hide Clear, Fits, Threaded, Freed;
    assert forall k, i :: 0 <= k < |t| && 0 <= i < |t[k]| ==>
        t[k][i] == if k == len then (if i == 0 then base else ls[k][i - 1]) else ls[k][i];
    FitsSame(d, e);
    ClearSymmetric();
  }

  lemma FitsSame(d: Disk, e: Disk)
    requires |e| == |d|
    ensures forall b, k :: Fits(d, b, k) ==> Fits(e, b, k)
  {
  }

  lemma ClearSymmetric()
    ensures forall b, k, c, m :: Clear(b, k, c, m) ==> Clear(c, m, b, k)
  {
  }

  lemma TakenGood(d: Disk, ls: Lists, k: nat)
    requires Good(d, ls) && k < ORDERS && ls[k] != []
    ensures Head(d, k) == ls[k][0] && Fits(d, ls[k][0], k) && 4 * Head(d, k) < |d|
    ensures Good(Taken(d, k), Popped(ls, k)) && ClearOf(Popped(ls, k), ls[k][0], k)
  {
    assert Fits(d, ls[k][0], k);
    var e, t := Taken(d, k), Popped(ls, k);
    forall m | 0 <= m < ORDERS
      ensures Chain(e, Head(e, m), t[m])
    {
      forall i | 0 <= i < |t[m]|
        ensures t[m][i] == if m == k then ls[m][i + 1] else ls[m][i]
      {
      }
      ChainKept(d, e, Head(e, m), t[m]);
    }
    assert forall m, i :: 0 <= m < |t| && 0 <= i < |t[m]| ==> t[m][i] == if m == k then ls[m][i + 1] else ls[m][i];
    hide Chain, Fits, Clear, Taken;
    FitsSame(d, e);
  }

  /** The lists after the upper halves went back. */
  ghost function SplitLists(ls: Lists, rt: nat, len: nat, l2: nat): (r: Lists)
    requires l2 <= |ls|
    ensures |r| == |ls|
    decreases l2
  {
    if l2 <= len then ls else SplitLists(Pushed(ls, l2 - 1, rt + Pow2(l2 - 1)), rt, len, l2 - 1)
  }

  /** A run that is clear splits into two clear halves. */
  lemma Halved(d: Disk, ls: Lists, rt: nat, l2: nat)
    requires l2 > 0 && Fits(d, rt, l2) && ClearOf(ls, rt, l2)
    ensures var h := rt + Pow2(l2 - 1);
            && Fits(d, rt, l2 - 1) && Fits(d, h, l2 - 1) && h < WORD
            && ClearOf(ls, h, l2 - 1) && ClearOf(ls, rt, l2 - 1) && Clear(rt, l2 - 1, h, l2 - 1)
  {
    var h := rt + Pow2(l2 - 1);
    forall m, j | 0 <= m < |ls| && 0 <= j < |ls[m]|
      ensures Clear(h, l2 - 1, ls[m][j], m) && Clear(rt, l2 - 1, ls[m][j], m)
    {
      assert Clear(rt, l2, ls[m][j], m);
    }
  }

  lemma ClearOfPushed(ls: Lists, b: nat, k: nat, c: nat, m: nat)
    requires m < |ls| && ClearOf(ls, b, k) && Clear(b, k, c, m)
    ensures ClearOf(Pushed(ls, m, c), b, k)
  {
    hide Clear;
    var t := Pushed(ls, m, c);
    assert forall k, i :: 0 <= k < |t| && 0 <= i < |t[k]| ==>
        t[k][i] == if k == m then (if i == 0 then c else ls[k][i - 1]) else ls[k][i];
  }

  lemma GoodShape(d: Disk, ls: Lists)
    requires Good(d, ls)
    ensures |d| > 1 && |ls| == ORDERS
  {
  }

  lemma SplitPossible(d: Disk, b: nat, k: nat)
    requires Fits(d, b, k)
    ensures 0 < b && 4 * (b + Pow2(k)) <= |d| <= WORD && 4 * b < |d|
  {
  }

  lemma {:induction false} SplitGood(d: Disk, ls: Lists, rt: nat, len: nat, l2: nat)
    requires Good(d, ls) && l2 <= ORDERS && Fits(d, rt, l2) && ClearOf(ls, rt, l2) && len <= l2
    ensures Good(SplitDown(d, rt, len, l2), SplitLists(ls, rt, len, l2))
    ensures ClearOf(SplitLists(ls, rt, len, l2), rt, len) && Fits(d, rt, len)
    decreases l2
  {
    hide Good, Clear, Fits, ClearOf, Freed, Pushed;
    if len < l2 {
      Halved(d, ls, rt, l2);
      var h := rt + Pow2(l2 - 1);
      GoodShape(d, ls);
      SplitPossible(d, rt, l2);
      SplitPossible(d, h, l2 - 1);
      FreedGood(d, ls, h, l2 - 1);
      ClearOfPushed(ls, rt, l2 - 1, h, l2 - 1);
      FitsSame(d, Freed(d, h, l2 - 1));
      FitsSame(Freed(d, h, l2 - 1), d);
      SplitGood(Freed(d, h, l2 - 1), Pushed(ls, l2 - 1, h), rt, len, l2 - 1);
    }
  }

  // --------------------------------------------------------------- mallocBlock

  /** The least order from len on with a list that is not empty; 20 if there is
      none. */
  function Least(d: Disk, len: nat): (k: nat)
    requires |d| > 1 && len <= ORDERS
    ensures len <= k <= ORDERS && (k < ORDERS ==> Head(d, k) != 0)
    ensures forall j :: len <= j < k ==> Head(d, j) == 0
    decreases ORDERS - len
  {
    if len == ORDERS || Head(d, len) != 0 then len else Least(d, len + 1)
  }

  ghost function MallocDisk(d: Disk, ls: Lists, len: nat): Disk
    requires Good(d, ls) && len < ORDERS
  {
    var k := Least(d, len);
    if k == ORDERS then d
    else
      TakenGood(d, ls, k);
      SplitDown(Taken(d, k), Head(d, k), len, k)
  }

  ghost function MallocLists(d: Disk, ls: Lists, len: nat): Lists
    requires Good(d, ls) && len < ORDERS
  {
    var k := Least(d, len);
    if k == ORDERS then ls else SplitLists(Popped(ls, k), Head(d, k), len, k)
  }

  function MallocBase(d: Disk, len: nat): nat
    requires |d| > 1 && len < ORDERS
  {
    if Least(d, len) == ORDERS then 0 else Head(d, Least(d, len))
  }

  /** The lists stay in order, and the run handed out is clear of all that is free. */
  lemma MallocGood(d: Disk, ls: Lists, len: nat)
    requires Good(d, ls) && len < ORDERS
    ensures Good(MallocDisk(d, ls, len), MallocLists(d, ls, len)) && |MallocDisk(d, ls, len)| == |d|
    ensures var b := MallocBase(d, len);
            b != 0 ==> Fits(d, b, len) && ClearOf(MallocLists(d, ls, len), b, len)
  {
    var k := Least(d, len);
    if k < ORDERS {
      TakenGood(d, ls, k);
      FitsSame(Taken(d, k), d);
      FitsSame(d, Taken(d, k));
      SplitGood(Taken(d, k), Popped(ls, k), Head(d, k), len, k);
    }
  }

  /** It fails, with 0 and nothing changed, exactly when every list of that order or
      above is empty. */
  lemma MallocFails(d: Disk, ls: Lists, len: nat)
    requires Good(d, ls) && len < ORDERS
    ensures MallocBase(d, len) == 0 <==> forall k :: len <= k < ORDERS ==> ls[k] == []
    ensures MallocBase(d, len) == 0 ==> MallocDisk(d, ls, len) == d && MallocLists(d, ls, len) == ls
  {
    assert forall k :: 0 <= k < ORDERS ==> Chain(d, Head(d, k), ls[k]);
  }

  // ------------------------------------------------------------ what is free

  lemma PushedFree(ls: Lists, k: nat, b: nat, x: nat)
    requires k < |ls|
    ensures Free(Pushed(ls, k, b), x) <==> Free(ls, x) || InRun(b, k, x)
  {
    hide InRun;
    var t := Pushed(ls, k, b);
    assert t[k][0] == b;
    if Free(ls, x) {
      var m, i :| 0 <= m < |ls| && 0 <= i < |ls[m]| && InRun(ls[m][i], m, x);
      assert t[m][if m == k then i + 1 else i] == ls[m][i];
    }
    if Free(t, x) {
      var m, i :| 0 <= m < |t| && 0 <= i < |t[m]| && InRun(t[m][i], m, x);
      if m != k || i > 0 { assert t[m][i] == ls[m][if m == k then i - 1 else i]; }
    }
  }

  lemma PoppedFree(ls: Lists, k: nat, x: nat)
    requires k < |ls| && ls[k] != [] && Apart(ls)
    ensures Free(Popped(ls, k), x) <==> Free(ls, x) && !InRun(ls[k][0], k, x)
  {
    var t := Popped(ls, k);
    assert [ls[k][0]] + ls[k][1..] == ls[k];
    assert ls == Pushed(t, k, ls[k][0]);
    PushedFree(t, k, ls[k][0], x);
    if Free(t, x) {
      var m, i :| 0 <= m < |t| && 0 <= i < |t[m]| && InRun(t[m][i], m, x);
      assert t[m][i] == ls[m][if m == k then i + 1 else i];
    }
  }

  lemma {:induction false} SplitFree(ls: Lists, rt: nat, len: nat, l2: nat, x: nat)
    requires l2 <= |ls| && len <= l2
    ensures Free(SplitLists(ls, rt, len, l2), x) <==> Free(ls, x) || (InRun(rt, l2, x) && !InRun(rt, len, x))
    decreases l2
  {
    if len < l2 {
      var h := rt + Pow2(l2 - 1);
      PushedFree(ls, l2 - 1, h, x);
      SplitFree(Pushed(ls, l2 - 1, h), rt, len, l2 - 1, x);
      Pow2Monotone(len, l2 - 1);
    }
  }

  /** Just the run handed out is no longer free. */
  lemma MallocFree(d: Disk, ls: Lists, len: nat, x: nat)
    requires Good(d, ls) && len < ORDERS && MallocBase(d, len) != 0
    ensures InRun(MallocBase(d, len), len, x) ==> Free(ls, x)
    ensures Free(MallocLists(d, ls, len), x) <==> Free(ls, x) && !InRun(MallocBase(d, len), len, x)
  {
    var k := Least(d, len);
    TakenGood(d, ls, k);
    PoppedFree(ls, k, x);
    SplitFree(Popped(ls, k), Head(d, k), len, k, x);
    Pow2Monotone(len, k);
    if InRun(ls[k][0], k, x) { assert Free(ls, x); }
  }

  // ---------------------------------------------------------------- accounting

  function Weight(k: nat, l: seq<nat>): nat { Pow2(k) * |l| }

  /** The blocks in the first n lists. */
  function Total(ls: Lists, n: nat): nat
    requires n <= |ls|
  {
    if n == 0 then 0 else Total(ls, n - 1) + Weight(n - 1, ls[n - 1])
  }

  lemma {:induction false} TotalSet(ls: Lists, k: nat, l: seq<nat>, n: nat)
    requires k < |ls| && n <= |ls|
    ensures Total(ls[k := l], n) == Total(ls, n) + if k < n then Weight(k, l) - Weight(k, ls[k]) else 0
  {
    if n > 0 {
      TotalSet(ls, k, l, n - 1);
    }
  }

  /** How far freeSize is from the blocks really free; mkfs leaves it at anything. */
  function Skew(d: Disk, ls: Lists): u32
    requires |d| > 1
  {
    Wrap(FreeSize(d) - Total(ls, |ls|))
  }

  lemma WeightNext(k: nat, b: nat, l: seq<nat>)
    ensures Weight(k, [b] + l) == Weight(k, l) + Pow2(k)
  {
    assert |[b] + l| == |l| + 1;
    assert Pow2(k) * (|l| + 1) == Pow2(k) * |l| + Pow2(k);
  }

  lemma WrapAdd(x: int, y: int, z: int)
    ensures Wrap(Wrap(x + y) - (z + y)) == Wrap(x - z)
  {
  }

  lemma PushedTotal(ls: Lists, k: nat, b: nat)
    requires k < |ls| == ORDERS
    ensures Total(Pushed(ls, k, b), ORDERS) == Total(ls, ORDERS) + Pow2(k)
  {
    hide Weight;
    TotalSet(ls, k, [b] + ls[k], ORDERS);
    WeightNext(k, b, ls[k]);
  }

  /** As much more in freeSize as on the lists. */
  lemma SkewKept(d: Disk, e: Disk, ls: Lists, t: Lists, x: int)
    requires |d| > 1 && |e| > 1 && |ls| == |t| == ORDERS
    requires FreeSize(e) == Wrap(FreeSize(d) + x) && Total(t, ORDERS) == Total(ls, ORDERS) + x
    ensures Skew(e, t) == Skew(d, ls)
  {
    WrapAdd(FreeSize(d), x, Total(ls, ORDERS));
  }

  lemma FreedSize(d: Disk, base: u32, len: nat)
    requires 0 < base && 4 * base < |d| && len < ORDERS
    ensures FreeSize(Freed(d, base, len)) == Wrap(FreeSize(d) + Pow2(len))
  {
    hide Wrap, Pow2;
    assert 4 * base != 1;
  }

  lemma FreedSkew(d: Disk, ls: Lists, base: u32, len: nat)
    requires 0 < base && 4 * base < |d| && len < ORDERS == |ls|
    ensures Skew(Freed(d, base, len), Pushed(ls, len, base)) == Skew(d, ls)
    ensures Total(Pushed(ls, len, base), ORDERS) == Total(ls, ORDERS) + Pow2(len)
  {
    hide Freed, Wrap, Total, FreeSize, Pow2, Skew;
    FreedSize(d, base, len);
    PushedTotal(ls, len, base);
    SkewKept(d, Freed(d, base, len), ls, Pushed(ls, len, base), Pow2(len));
  }

  lemma TakenSkew(d: Disk, ls: Lists, k: nat)
    requires |d| > 1 && k < ORDERS == |ls| && ls[k] != [] && 4 * Head(d, k) < |d|
    ensures Skew(Taken(d, k), Popped(ls, k)) == Skew(d, ls)
    ensures Total(Popped(ls, k), ORDERS) == Total(ls, ORDERS) - Pow2(k)
  {
    assert FreeSize(Taken(d, k)) == Wrap(FreeSize(d) - Pow2(k));
    assert [ls[k][0]] + ls[k][1..] == ls[k];
    assert ls == Pushed(Popped(ls, k), k, ls[k][0]);
    hide Taken, Wrap, Total, FreeSize, Pow2, Skew, Pushed, Popped;
    PushedTotal(Popped(ls, k), k, ls[k][0]);
    SkewKept(d, Taken(d, k), ls, Popped(ls, k), -(Pow2(k) as int));
  }

  lemma {:induction false} SplitSkew(d: Disk, ls: Lists, rt: u32, len: nat, l2: nat)
    requires |ls| == ORDERS && l2 <= ORDERS && len <= l2 && Fits(d, rt, l2)
    ensures Skew(SplitDown(d, rt, len, l2), SplitLists(ls, rt, len, l2)) == Skew(d, ls)
    ensures Total(SplitLists(ls, rt, len, l2), ORDERS) == Total(ls, ORDERS) + Pow2(l2) - Pow2(len)
    decreases l2
  {
    if len < l2 {
      var h := rt + Pow2(l2 - 1);
      FreedSkew(d, ls, h, l2 - 1);
      FitsSame(d, Freed(d, h, l2 - 1));
      hide Freed, Skew, Total, Pushed;
      SplitSkew(Freed(d, h, l2 - 1), Pushed(ls, l2 - 1, h), rt, len, l2 - 1);
    }
  }

  /** The difference between freeSize and the blocks free never changes. */
  lemma MallocSkew(d: Disk, ls: Lists, len: nat)
    requires Good(d, ls) && len < ORDERS
    ensures Skew(MallocDisk(d, ls, len), MallocLists(d, ls, len)) == Skew(d, ls)
    ensures Total(MallocLists(d, ls, len), ORDERS) == Total(ls, ORDERS) - if MallocBase(d, len) == 0 then 0 else Pow2(len)
  {
    var k := Least(d, len);
    if k < ORDERS {
      TakenGood(d, ls, k);
      TakenSkew(d, ls, k);
      FitsSame(d, Taken(d, k));
      SplitSkew(Taken(d, k), Popped(ls, k), Head(d, k), len, k);
    }
  }

  // ------------------------------------------------------- what is touched

  /** The superblock but for freeSize and the list heads. */
  ghost predicate SameSuper(d: Disk, e: Disk)
    requires |d| > 1 && |e| > 1
  {
    forall i :: 0 <= i < FREE_SIZE || FREE_BLOCK + ORDERS <= i < 128 ==> e[1][i] == d[1][i]
  }

  lemma FreedSuper(d: Disk, base: u32, len: nat)
    requires 0 < base && 4 * base < |d| && len < ORDERS
    ensures SameSuper(d, Freed(d, base, len))
  {
    hide Wrap, Pow2;
  }

  lemma FreedTouches(d: Disk, base: u32, len: nat, s: nat)
    requires 0 < base && 4 * base < |d| && len < ORDERS && s < |d| && s != 1 && s != 4 * base
    ensures Freed(d, base, len)[s] == d[s] && SameSuper(d, Freed(d, base, len))
  {
    hide Wrap, Pow2;
  }

  lemma {:induction false} SplitTouches(d: Disk, rt: u32, len: nat, l2: nat, s: nat)
    requires l2 <= ORDERS && len <= l2 && Fits(d, rt, l2) && s < |d| && s != 1 && !InRun(rt, l2, s / 4)
    ensures SplitDown(d, rt, len, l2)[s] == d[s] && SameSuper(d, SplitDown(d, rt, len, l2))
    decreases l2
  {
    if len < l2 {
      var h := rt + Pow2(l2 - 1);
      FitsSame(d, Freed(d, h, l2 - 1));
      FreedTouches(d, h, l2 - 1, s);
      hide Freed;
      SplitTouches(Freed(d, h, l2 - 1), rt, len, l2 - 1, s);
    }
  }

  lemma HeadIsFree(ls: Lists, k: nat, x: nat)
    requires k < |ls| && ls[k] != []
    ensures InRun(ls[k][0], k, x) ==> Free(ls, x)
  {
  }

  /** mallocBlock writes to the superblock and to free blocks only. */
  lemma MallocTouches(d: Disk, ls: Lists, len: nat, s: nat)
    requires Good(d, ls) && len < ORDERS && s < |d| && s != 1 && !Free(ls, s / 4)
    ensures MallocDisk(d, ls, len)[s] == d[s] && SameSuper(d, MallocDisk(d, ls, len))
  {
    var k := Least(d, len);
    if k < ORDERS {
      TakenGood(d, ls, k);
      FitsSame(d, Taken(d, k));
      HeadIsFree(ls, k, s / 4);
      SplitTouches(Taken(d, k), Head(d, k), len, k, s);
    }
  }
}
