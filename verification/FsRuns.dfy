// Whole runs of mallocBlock and freeBlock (kernel/driver/filesystem/filesystem.c:284-324).
module FsRuns {
  import opened Bits
  import opened FsBlocks
  import opened FsFormat

  datatype Run = Run(base: u32, order: nat)

  /** The disk, its lists and the runs handed out and not yet given back. */
  datatype Volume = Volume(d: Disk, ls: Lists, owned: set<Run>)

  datatype Call = Malloc(order: nat) | FreeBlock(run: Run)

  ghost predicate Possible(v: Volume, c: Call) {
    match c
    case Malloc(order) => Good(v.d, v.ls) && order < ORDERS
    case FreeBlock(run) =>
      run in v.owned && 0 < run.base && 4 * run.base < |v.d| && run.order < ORDERS && run.order < |v.ls|
  }

  ghost function After(v: Volume, c: Call): Volume
    requires Possible(v, c)
  {
    match c
    case Malloc(order) =>
      var b := MallocBase(v.d, order);
      Volume(MallocDisk(v.d, v.ls, order), MallocLists(v.d, v.ls, order),
             if b == 0 || b >= WORD then v.owned else v.owned + {Run(b, order)})
    case FreeBlock(run) =>
      Volume(Freed(v.d, run.base, run.order), Pushed(v.ls, run.order, run.base), v.owned - {run})
  }

  ghost predicate OnDisk(v: Volume, r: Run) {
    r.order < ORDERS && Fits(v.d, r.base, r.order) && forall x: nat :: InRun(r.base, r.order, x) ==> !Free(v.ls, x)
  }

  predicate Meet(q: Run, r: Run, x: nat) { InRun(q.base, q.order, x) && InRun(r.base, r.order, x) }

  /** The lists are in order, and what was handed out overlaps neither what is free nor
      itself. */
  ghost predicate Inv(v: Volume) {
    && Good(v.d, v.ls) && (forall r :: r in v.owned ==> OnDisk(v, r))
    && forall q, r, x: nat :: q in v.owned && r in v.owned && Meet(q, r, x) ==> q == r
  }

  lemma MallocKeeps(v: Volume, order: nat)
    requires Inv(v) && order < ORDERS
    ensures Inv(After(v, Malloc(order))) && |After(v, Malloc(order)).d| == |v.d| > 1
    ensures Skew(After(v, Malloc(order)).d, After(v, Malloc(order)).ls) == Skew(v.d, v.ls)
  {
    var w, b := After(v, Malloc(order)), MallocBase(v.d, order);
    MallocGood(v.d, v.ls, order);
    MallocSkew(v.d, v.ls, order);
    if b == 0 {
      MallocFails(v.d, v.ls, order);
    } else {
      assert Fits(v.d, b, order);
      hide MallocDisk, MallocLists, MallocBase, Good, Free, InRun, Skew, Fits;
      var n := Run(b, order);
      forall x: nat
        ensures (InRun(b, order, x) ==> Free(v.ls, x)) && (Free(w.ls, x) <==> Free(v.ls, x) && !InRun(b, order, x))
      {
        MallocFree(v.d, v.ls, order, x);
      }
      forall r | r in v.owned
        ensures OnDisk(w, r)
      {
        assert OnDisk(v, r);
        FitsSame(v.d, w.d);
      }
      FitsSame(v.d, w.d);
      forall r, x: nat | r in v.owned && InRun(r.base, r.order, x)
        ensures !InRun(b, order, x)
      {
        assert OnDisk(v, r);
      }
    }
  }

  lemma FreeKeeps(v: Volume, run: Run)
    requires Inv(v) && run in v.owned
    ensures Possible(v, FreeBlock(run)) && Inv(After(v, FreeBlock(run))) && |After(v, FreeBlock(run)).d| == |v.d| > 1
    ensures Skew(After(v, FreeBlock(run)).d, After(v, FreeBlock(run)).ls) == Skew(v.d, v.ls)
  {
    assert OnDisk(v, run);
    ClearFromFree(v.ls, run.base, run.order);
    FreedGood(v.d, v.ls, run.base, run.order);
    FreedSkew(v.d, v.ls, run.base, run.order);
    var w := After(v, FreeBlock(run));
    hide Freed, Good, Free, InRun, Skew, Fits, Pushed;
    forall r | r in w.owned
      ensures OnDisk(w, r)
    {
      assert OnDisk(v, r);
      FitsSame(v.d, w.d);
      forall x: nat | InRun(r.base, r.order, x)
        ensures !Free(w.ls, x)
      {
        PushedFree(v.ls, run.order, run.base, x);
        assert !Meet(r, run, x);
      }
    }
  }

  // ------------------------------------------------------------- conservation

  /** Block x is in a run that is handed out. */
  ghost predicate Lent(v: Volume, x: nat) {
    exists r :: r in v.owned && InRun(r.base, r.order, x)
  }

  /** What mallocBlock hands out, it takes from the free blocks; no block is lost. */
  lemma MallocLends(v: Volume, order: nat)
    requires Inv(v) && order < ORDERS
    ensures var w, b := After(v, Malloc(order)), MallocBase(v.d, order);
            && (b == 0 ==> w == v)
            && (b != 0 ==>
                  && b < WORD && w.owned == v.owned + {Run(b, order)} && Run(b, order) !in v.owned
                  && forall x: nat :: && (Free(w.ls, x) <==> Free(v.ls, x) && !InRun(b, order, x))
                                      && (Lent(w, x) <==> Lent(v, x) || InRun(b, order, x))
                                      && (InRun(b, order, x) ==> Free(v.ls, x) && !Lent(v, x)))
  {
    hide MallocDisk, MallocLists, MallocBase, Good, Free, InRun;
    DiskLong(v);
    var w, b := After(v, Malloc(order)), MallocBase(v.d, order);
    if b == 0 {
      MallocFails(v.d, v.ls, order);
    } else {
      MallocGood(v.d, v.ls, order);
      forall x: nat
        ensures (Free(w.ls, x) <==> Free(v.ls, x) && !InRun(b, order, x)) && (InRun(b, order, x) ==> Free(v.ls, x))
        ensures Free(v.ls, x) ==> !Lent(v, x)
        ensures Lent(w, x) <==> Lent(v, x) || InRun(b, order, x)
      {
        MallocFree(v.d, v.ls, order, x);
        if Free(v.ls, x) { NotLent(v, x); }
        LentMore(v, w, Run(b, order), x);
      }
      RunStarts(b, order);
      assert Run(b, order) in v.owned ==> Lent(v, b);
    }
  }

  lemma NotLent(v: Volume, x: nat)
    requires Inv(v) && Free(v.ls, x)
    ensures !Lent(v, x)
  {
    hide Good, Free, InRun;
    forall r | r in v.owned
      ensures !InRun(r.base, r.order, x)
    {
      assert OnDisk(v, r);
    }
  }

  lemma LentMore(v: Volume, w: Volume, r: Run, x: nat)
    requires w.owned == v.owned + {r}
    ensures Lent(w, x) <==> Lent(v, x) || InRun(r.base, r.order, x)
  {
    hide InRun;
    if InRun(r.base, r.order, x) { assert r in w.owned; }
    if q :| q in v.owned && InRun(q.base, q.order, x) { assert q in w.owned; }
  }

  lemma RunStarts(b: nat, order: nat)
    ensures InRun(b, order, b)
  {
  }

  /** What freeBlock gets is free again. */
  lemma FreeReturns(v: Volume, run: Run)
    requires Inv(v) && run in v.owned && Possible(v, FreeBlock(run))
    ensures var w := After(v, FreeBlock(run));
            && w.owned == v.owned - {run}
            && forall x: nat :: && (Free(w.ls, x) <==> Free(v.ls, x) || InRun(run.base, run.order, x))
                                && (Lent(w, x) <==> Lent(v, x) && !InRun(run.base, run.order, x))
  {
    hide Freed, Good, Free, InRun, Pushed;
    var w := After(v, FreeBlock(run));
    forall x: nat
      ensures Free(w.ls, x) <==> Free(v.ls, x) || InRun(run.base, run.order, x)
      ensures Lent(w, x) <==> Lent(v, x) && !InRun(run.base, run.order, x)
    {
      PushedFree(v.ls, run.order, run.base, x);
      if r :| r in w.owned && InRun(r.base, r.order, x) { assert !Meet(r, run, x); }
      if r :| r in v.owned && InRun(r.base, r.order, x) && !InRun(run.base, run.order, x) { assert r in w.owned; }
    }
  }

  ghost predicate CallAt(vs: seq<Volume>, cs: seq<Call>, k: nat)
    requires k < |cs| && |vs| == |cs| + 1
  {
    Possible(vs[k], cs[k]) && vs[k + 1] == After(vs[k], cs[k])
  }

  /** Whatever is allocated and freed, in any order: the lists stay chains of distinct
      runs, nothing handed out is free or handed out twice, and freeSize is as far off
      as it ever was. */
  lemma {:induction false} RunKeeps(vs: seq<Volume>, cs: seq<Call>, n: nat)
    requires |vs| == |cs| + 1 && n <= |cs| && Inv(vs[0]) && forall k :: 0 <= k < |cs| ==> CallAt(vs, cs, k)
    ensures Inv(vs[n]) && |vs[0].d| == |vs[n].d| > 1 && Skew(vs[n].d, vs[n].ls) == Skew(vs[0].d, vs[0].ls)
  {
    hide After, Skew, Good, OnDisk, Meet;
    if n > 0 {
      RunKeeps(vs, cs, n - 1);
      assert CallAt(vs, cs, n - 1);
      match cs[n - 1] {
        case Malloc(order) => MallocKeeps(vs[n - 1], order);
        case FreeBlock(run) => FreeKeeps(vs[n - 1], run);
      }
    } else {
      DiskLong(vs[0]);
    }
  }

  lemma DiskLong(v: Volume)
    requires Inv(v)
    ensures |v.d| > 1
  {
  }

  /** No run of calls loses a block or makes one up: each is free or handed out after it if
      it was before. So a run that gives back what it took leaves the same blocks free. */
  lemma {:induction false} RunConserves(vs: seq<Volume>, cs: seq<Call>, n: nat, x: nat)
    requires |vs| == |cs| + 1 && n <= |cs| && Inv(vs[0]) && forall k :: 0 <= k < |cs| ==> CallAt(vs, cs, k)
    ensures Free(vs[n].ls, x) || Lent(vs[n], x) <==> Free(vs[0].ls, x) || Lent(vs[0], x)
    ensures vs[n].owned == vs[0].owned ==> (Free(vs[n].ls, x) <==> Free(vs[0].ls, x))
  {
    hide After, Good, OnDisk, Meet, Free, Lent, Inv, Possible;
    if n > 0 {
      RunConserves(vs, cs, n - 1, x);
      RunKeeps(vs, cs, n - 1);
      assert CallAt(vs, cs, n - 1);
      CallConserves(vs[n - 1], cs[n - 1], x);
    }
    RunKeeps(vs, cs, n);
    FreeOrLent(vs[n], x);
    FreeOrLent(vs[0], x);
    if vs[n].owned == vs[0].owned { SameLent(vs[n], vs[0], x); }
  }

  lemma CallConserves(v: Volume, c: Call, x: nat)
    requires Inv(v) && Possible(v, c)
    ensures Free(After(v, c).ls, x) || Lent(After(v, c), x) <==> Free(v.ls, x) || Lent(v, x)
  {
    hide After, Free, Inv, Lent, InRun;
    match c {
      case Malloc(order) => MallocLends(v, order);
      case FreeBlock(run) =>
        FreeReturns(v, run);
        LentRun(v, run, x);
    }
  }

  lemma LentRun(v: Volume, run: Run, x: nat)
    requires run in v.owned
    ensures InRun(run.base, run.order, x) ==> Lent(v, x)
  {
  }

  lemma FreeOrLent(v: Volume, x: nat)
    requires Inv(v)
    ensures !(Free(v.ls, x) && Lent(v, x))
  {
    if Free(v.ls, x) { NotLent(v, x); }
  }

  lemma SameLent(v: Volume, w: Volume, x: nat)
    requires v.owned == w.owned
    ensures Lent(v, x) <==> Lent(w, x)
  {
  }
}
