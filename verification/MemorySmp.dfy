// Any number of CPUs in the buddy allocator at once. memory_block_free drops the
// lock between coalescing levels and memory_alloc drops it before it returns the
// tail of a split, so blocks are in flight between the critical sections. Each
// step below is one critical section (or a step on CPU-local state).
module MemorySmp {
  import opened Options
  import opened Bits
  import opened Blocks
  import opened Ranges
  import opened FreeLists
  import opened Memory

  /** pending[c] are the blocks CPU c has taken on to free and not yet listed; the
      first one is the one it is coalescing. */
  datatype Heap = Heap(free: set<Block>, counter: int, pending: seq<seq<Block>>, owned: set<int>)

  datatype Step =
    | StartFree(cpu: nat, addr: int, n: int)      // memory_free_nocheck: entry
    | StartBlock(cpu: nat, block: Block)          // memory_block_free: entry
    | Level(cpu: nat)                             // memory_block_free: one critical section
    | Take(cpu: nat, addr: int, bit: nat, k: nat) // memory_alloc: its critical section

  /** The critical section of memory_block_free on the block p. */
  ghost function LevelHeap(s: Heap, c: nat): Heap
    requires c < |s.pending| && s.pending[c] != []
  {
    var p, rest := s.pending[c][0], s.pending[c][1..];
    if Buddy(p) in s.free then
      s.(free := s.free - {Buddy(p)}, counter := s.counter + p.Size() - 2 * p.Size(),
         pending := s.pending[c := [Parent(p)] + rest])
    else
      s.(free := s.free + {p}, counter := s.counter + p.Size(), pending := s.pending[c := rest])
  }

  /** The lowest-addressed block of the smallest order that suffices. */
  ghost predicate FirstFit(F: set<Block>, addr: int, bit: nat, k: nat) {
    && 2 <= bit <= k && Block(addr, k) in F
    && (forall q :: q in F && bit <= q.bit ==> k <= q.bit)
    && (forall q :: q in F && q.bit == k ==> addr <= q.addr)
  }

  ghost predicate Enabled(s: Heap, e: Step) {
    && e.cpu < |s.pending|
    && match e
       case StartFree(c, addr, n) => s.pending[c] == [] && Cuttable(addr, n, 2) && Range(addr, n) <= s.owned
       case StartBlock(c, p) => s.pending[c] == [] && p.Good() && Span(p) <= s.owned
       case Level(c) => s.pending[c] != []
       case Take(c, addr, bit, k) => s.pending[c] == [] && FirstFit(s.free, addr, bit, k)
  }

  ghost function Next(s: Heap, e: Step): Heap
    requires Enabled(s, e)
  {
    match e
    case StartFree(c, addr, n) =>
      s.(pending := s.pending[c := Cut(addr, n, 2)], owned := s.owned - Range(addr, n))
    case StartBlock(c, p) =>
      s.(pending := s.pending[c := [p]], owned := s.owned - Span(p))
    case Level(c) => LevelHeap(s, c)
    case Take(c, addr, bit, k) =>
      Heap(s.free - {Block(addr, k)}, s.counter - Pow2(k),
           s.pending[c := Cut(addr + Pow2(bit), Pow2(k) - Pow2(bit), 2)],
           s.owned + Span(Block(addr, bit)))
  }

  /** Where a managed byte is; the blocks of a CPU are numbered from its last. */
  datatype Place = Listed | InFlight(cpu: nat, i: nat) | Owned

  ghost predicate IsAt(s: Heap, x: int, a: Place) {
    match a
    case Listed => x in Bytes(s.free)
    case InFlight(c, i) => c < |s.pending| && i < |s.pending[c]| && Nth(s.pending[c], i).Has(x)
    case Owned => x in s.owned
  }

  function Nth(q: seq<Block>, i: nat): Block
    requires i < |q|
  {
    q[|q| - 1 - i]
  }

  /** Every byte of the arena is in exactly one place, and no other byte in any. */
  ghost predicate Tiled(s: Heap, arena: set<int>) {
    && (forall x :: x in arena ==> exists a :: IsAt(s, x, a))
    && (forall x, a :: IsAt(s, x, a) ==> x in arena)
    && (forall x, a, b :: IsAt(s, x, a) && IsAt(s, x, b) ==> a == b)
  }

  ghost predicate Invariant(s: Heap, arena: set<int>) {
    && Canonical(s.free) && s.counter == Total(s.free)
    && (forall c, i :: 0 <= c < |s.pending| && 0 <= i < |s.pending[c]| ==> s.pending[c][i].Good())
    && Tiled(s, arena)
  }

  /** Before anything is freed: empty lists, and all of the arena the kernel's. */
  lemma StartInvariant(cpus: nat, arena: set<int>)
    ensures Invariant(Heap({}, 0, seq(cpus, _ => []), arena), arena)
  {
    var s := Heap({}, 0, seq(cpus, _ => []), arena);
    assert Bytes({}) == {};
    forall x | x in arena
      ensures exists a :: IsAt(s, x, a)
    {
      assert IsAt(s, x, Owned);
    }
  }

  lemma MergeBytes(F: set<Block>, p: Block)
    requires Canonical(F) && p.Good() && Clear(F, p) && Buddy(p) in F
    ensures Parent(p).Good() && Canonical(F - {Buddy(p)}) && Total(F - {Buddy(p)}) == Total(F) - p.Size()
    ensures forall x :: x in Bytes(F - {Buddy(p)}) <==> x in Bytes(F) && !Buddy(p).Has(x)
    ensures forall x :: Buddy(p).Has(x) ==> x in Bytes(F) && !p.Has(x)
    ensures forall x :: Parent(p).Has(x) <==> p.Has(x) || Buddy(p).Has(x)
  {
    BuddyFacts(p);
    ParentGood(p);
    BytesRemove(F, Buddy(p));
    TotalRemove(F, Buddy(p));
    forall x
      ensures Buddy(p).Has(x) <==> x in Span(Buddy(p))
    {
    }
  }

  lemma ListBytes(F: set<Block>, p: Block)
    requires Canonical(F) && p.Good() && Clear(F, p) && Buddy(p) !in F
    ensures Canonical(F + {p}) && Total(F + {p}) == Total(F) + p.Size()
    ensures forall x :: x in Bytes(F + {p}) <==> x in Bytes(F) || p.Has(x)
  {
    assert Insert(F, p) == F + {p};
    InsertCanonical(F, p);
    assert p in F ==> Disjoint(p, p);
    TotalRemove(F + {p}, p);
    assert F + {p} - {p} == F;
    forall x
      ensures p.Has(x) <==> x in Span(p)
    {
    }
  }

  lemma HeadClear(s: Heap, arena: set<int>, c: nat)
    requires Invariant(s, arena) && c < |s.pending| && s.pending[c] != []
    ensures s.pending[c][0].Good() && Clear(s.free, s.pending[c][0])
  {
    var p, top := s.pending[c][0], InFlight(c, |s.pending[c]| - 1);
    forall x | x in Bytes(s.free)
      ensures x !in Span(p)
    {
      assert IsAt(s, x, Listed) && (IsAt(s, x, top) <==> p.Has(x));
    }
    ClearIsDisjoint(s.free, p);
  }

  /** One level of coalescing: the tiling survives, whichever CPU takes it. */
  lemma LevelKeeps(s: Heap, arena: set<int>, c: nat)
    requires Invariant(s, arena) && c < |s.pending| && s.pending[c] != []
    ensures Invariant(LevelHeap(s, c), arena)
  {
    hide Canonical, Bytes, Total;
    var p, rest, t := s.pending[c][0], s.pending[c][1..], LevelHeap(s, c);
    var top := InFlight(c, |s.pending[c]| - 1);
    HeadClear(s, arena, c);
    forall x, a | a != Listed && a != top
      ensures IsAt(t, x, a) <==> IsAt(s, x, a)
    {
    }
    if Buddy(p) in s.free {
      MergeBytes(s.free, p);
      forall x
        ensures IsAt(t, x, Listed) <==> IsAt(s, x, Listed) && !Buddy(p).Has(x)
        ensures IsAt(t, x, top) <==> IsAt(s, x, top) || Buddy(p).Has(x)
        ensures Buddy(p).Has(x) ==> IsAt(s, x, Listed) && !IsAt(s, x, top)
      {
      }
      MovedTiled(s, t, arena, Listed, top);
    } else {
      ListBytes(s.free, p);
      forall x
        ensures IsAt(t, x, Listed) <==> IsAt(s, x, Listed) || IsAt(s, x, top)
        ensures !IsAt(t, x, top)
      {
      }
      MovedTiled(s, t, arena, top, Listed);
    }
  }

  /** Taking on owned bytes to free. */
  lemma StartKeeps(s: Heap, arena: set<int>, c: nat, Q: seq<Block>, R: set<int>)
    requires Invariant(s, arena) && c < |s.pending| && s.pending[c] == [] && R <= s.owned
    requires forall p :: p in Q ==> p.Good()
    requires ApartSeq(Q) && forall x :: Covered(Members(Q), x) <==> x in R
    ensures Invariant(s.(pending := s.pending[c := Q], owned := s.owned - R), arena)
  {
    hide Canonical, Bytes, Total;
    var t := s.(pending := s.pending[c := Q], owned := s.owned - R);
    forall d, i | 0 <= d < |t.pending| && 0 <= i < |t.pending[d]|
      ensures t.pending[d][i].Good()
    {
      if d == c { assert Q[i] in Q; }
    }
    forall x, a: Place | !(a.InFlight? && a.cpu == c)
      ensures IsAt(t, x, a) <==> IsAt(s, x, a) && !(a == Owned && x in R)
    {
    }
    forall x, i | IsAt(t, x, InFlight(c, i))
      ensures x in R && IsAt(s, x, Owned)
    {
      assert Nth(Q, i) in Members(Q);
    }
    forall x | x in arena
      ensures exists a :: IsAt(t, x, a)
    {
      if x in R {
        var p :| p in Members(Q) && p.Has(x);
        var j :| 0 <= j < |Q| && Q[j] == p;
        assert IsAt(t, x, InFlight(c, |Q| - 1 - j));
      } else {
        var a :| IsAt(s, x, a);
        assert IsAt(t, x, a);
      }
    }
    forall x, a: Place | IsAt(t, x, a)
      ensures x in arena
    {
      assert IsAt(s, x, a) || IsAt(s, x, Owned);
    }
    forall x, a: Place, b: Place | IsAt(t, x, a) && IsAt(t, x, b)
      ensures a == b
    {
      if x in R {
        assert IsAt(s, x, Owned);
        assert a.InFlight? && a.cpu == c;
      }
    }
  }

  lemma CutKeeps(s: Heap, arena: set<int>, c: nat, addr: int, n: int)
    requires Invariant(s, arena) && c < |s.pending| && s.pending[c] == []
    requires Cuttable(addr, n, 2) && Range(addr, n) <= s.owned
    ensures Invariant(s.(pending := s.pending[c := Cut(addr, n, 2)], owned := s.owned - Range(addr, n)), arena)
  {
    CutTiles(addr, n, 2);
    StartKeeps(s, arena, c, Cut(addr, n, 2), Range(addr, n));
  }

  /** memory_alloc's critical section: the whole order-k block leaves the list; the
      part beyond the request is in flight. */
  lemma TakeKeeps(s: Heap, arena: set<int>, c: nat, addr: int, bit: nat, k: nat)
    requires Invariant(s, arena) && c < |s.pending| && s.pending[c] == []
    requires 2 <= bit <= k && Block(addr, k) in s.free
    ensures Invariant(Heap(s.free - {Block(addr, k)}, s.counter - Pow2(k),
                           s.pending[c := Cut(addr + Pow2(bit), Pow2(k) - Pow2(bit), 2)],
                           s.owned + Span(Block(addr, bit))), arena)
  {
    hide Invariant, Pow2, Aligned, Cut, Cuttable;
    var p := Block(addr, k);
    var u := Heap(s.free - {p}, s.counter - p.Size(), s.pending, s.owned + Span(p));
    var tail, n := addr + Pow2(bit), Pow2(k) - Pow2(bit);
    DetachKeeps(s, arena, p);
    SplitRange(addr, bit, k);
    TailCuttable(p, bit);
    CutKeeps(u, arena, c, tail, n);
    assert s.owned + Span(Block(addr, bit)) == u.owned - Range(tail, n);
  }

  lemma DetachKeeps(s: Heap, arena: set<int>, p: Block)
    requires Invariant(s, arena) && p in s.free
    ensures Invariant(Heap(s.free - {p}, s.counter - p.Size(), s.pending, s.owned + Span(p)), arena)
    ensures p.Good() && s.owned !! Span(p)
  {
    hide Canonical, Bytes, Total;
    var u := Heap(s.free - {p}, s.counter - p.Size(), s.pending, s.owned + Span(p));
    DetachBytes(s.free, p);
    forall x, a | a != Listed && a != Owned
      ensures IsAt(u, x, a) <==> IsAt(s, x, a)
    {
    }
    forall x
      ensures IsAt(u, x, Listed) <==> IsAt(s, x, Listed) && !p.Has(x)
      ensures IsAt(u, x, Owned) <==> IsAt(s, x, Owned) || p.Has(x)
      ensures p.Has(x) ==> IsAt(s, x, Listed) && !IsAt(s, x, Owned)
    {
    }
    MovedTiled(s, u, arena, Listed, Owned);
    forall x | x in s.owned
      ensures x !in Span(p)
    {
      assert IsAt(s, x, Owned);
    }
  }

  lemma DetachBytes(F: set<Block>, p: Block)
    requires Canonical(F) && p in F
    ensures p.Good() && Canonical(F - {p}) && Total(F - {p}) == Total(F) - p.Size()
    ensures forall x :: x in Bytes(F - {p}) <==> x in Bytes(F) && !p.Has(x)
    ensures forall x :: p.Has(x) ==> x in Bytes(F)
  {
    BytesRemove(F, p);
    TotalRemove(F, p);
    assert forall x :: p.Has(x) <==> x in Span(p);
  }

  lemma TailCuttable(p: Block, bit: nat)
    requires p.Good() && 2 <= bit <= p.bit
    ensures Cuttable(p.addr + Pow2(bit), Pow2(p.bit) - Pow2(bit), 2)
  {
    SplitRange(p.addr, bit, p.bit);
  }

  /** Every step of every CPU keeps the tiling and the counter. */
  lemma StepKeeps(s: Heap, arena: set<int>, e: Step)
    requires Invariant(s, arena) && Enabled(s, e)
    ensures Invariant(Next(s, e), arena)
  {
    hide Invariant, Cut, Pow2, Bytes, Aligned, Cuttable;
    match e {
      case StartFree(c, addr, n) => CutKeeps(s, arena, c, addr, n);
      case StartBlock(c, p) => BlockKeeps(s, arena, c, p);
      case Level(c) => LevelKeeps(s, arena, c);
      case Take(c, addr, bit, k) => TakeKeeps(s, arena, c, addr, bit, k);
    }
  }

  lemma BlockKeeps(s: Heap, arena: set<int>, c: nat, p: Block)
    requires Invariant(s, arena) && Enabled(s, StartBlock(c, p))
    ensures Invariant(Next(s, StartBlock(c, p)), arena)
  {
    forall x
      ensures Covered(Members([p]), x) <==> x in Span(p)
    {
      assert p in Members([p]);
    }
    StartKeeps(s, arena, c, [p], Span(p));
  }

  /** Some bytes move from one place to another. */
  lemma MovedTiled(s: Heap, t: Heap, arena: set<int>, from: Place, to: Place)
    requires Tiled(s, arena) && from != to
    requires forall x, a :: a != from && a != to ==> (IsAt(t, x, a) <==> IsAt(s, x, a))
    requires forall x :: IsAt(t, x, from) ==> IsAt(s, x, from)
    requires forall x :: IsAt(s, x, to) ==> IsAt(t, x, to)
    requires forall x :: IsAt(t, x, to) && !IsAt(s, x, to) <==> IsAt(s, x, from) && !IsAt(t, x, from)
    ensures Tiled(t, arena)
  {
    forall x | x in arena
      ensures exists a :: IsAt(t, x, a)
    {
      var a :| IsAt(s, x, a);
      if a == from {
        assert IsAt(t, x, from) || IsAt(t, x, to);
      } else if a == to {
        assert IsAt(t, x, to);
      } else {
        assert IsAt(t, x, a);
      }
    }
    forall x, a | IsAt(t, x, a)
      ensures x in arena
    {
      assert IsAt(s, x, a) || IsAt(s, x, from);
    }
    forall x, a, b | IsAt(t, x, a) && IsAt(t, x, b)
      ensures a == b
    {
    }
  }

  // ------------------------------------------------------------------- whole runs

  ghost predicate Run(hs: seq<Heap>, es: seq<Step>) {
    && |hs| == |es| + 1
    && (forall i :: 0 <= i < |es| ==> Enabled(hs[i], es[i]) && hs[i + 1] == Next(hs[i], es[i]))
  }

  lemma {:induction false} RunKeeps(hs: seq<Heap>, es: seq<Step>, arena: set<int>, n: nat)
    requires Run(hs, es) && Invariant(hs[0], arena) && n <= |es|
    ensures Invariant(hs[n], arena)
  {
    hide Invariant, Next, Enabled;
    if n > 0 {
      RunKeeps(hs, es, arena, n - 1);
      StepKeeps(hs[n - 1], arena, es[n - 1]);
      assert hs[n - 1 + 1] == Next(hs[n - 1], es[n - 1]);
    }
  }

  ghost predicate Quiescent(s: Heap) {
    forall c :: 0 <= c < |s.pending| ==> s.pending[c] == []
  }

  /** With nothing in flight, what is free is what is managed and not owned. */
  lemma QuiescentBytes(s: Heap, arena: set<int>)
    requires Invariant(s, arena) && Quiescent(s)
    ensures Bytes(s.free) == arena - s.owned && s.owned <= arena
  {
    forall x
      ensures x in Bytes(s.free) <==> x in arena - s.owned
      ensures x in s.owned ==> x in arena
    {
      assert IsAt(s, x, Listed) <==> x in Bytes(s.free);
      assert IsAt(s, x, Owned) <==> x in s.owned;
      if x in arena {
        var a :| IsAt(s, x, a);
      }
    }
  }

  /** The heap after all CPUs are done does not depend on how they interleaved: any
      two runs over the same arena that end with nothing in flight and the same
      bytes owned end with the same lists and the same counter. In particular a run
      that gives back all it took restores the heap it started from. */
  lemma RunsConverge(hs: seq<Heap>, es: seq<Step>, gs: seq<Heap>, ds: seq<Step>, arena: set<int>)
    requires Run(hs, es) && Invariant(hs[0], arena) && Run(gs, ds) && Invariant(gs[0], arena)
    requires Quiescent(hs[|es|]) && Quiescent(gs[|ds|]) && hs[|es|].owned == gs[|ds|].owned
    ensures hs[|es|].free == gs[|ds|].free && hs[|es|].counter == gs[|ds|].counter
  {
    var s, t := hs[|es|], gs[|ds|];
    RunKeeps(hs, es, arena, |es|);
    RunKeeps(gs, ds, arena, |ds|);
    QuiescentBytes(s, arena);
    QuiescentBytes(t, arena);
    CanonicalUnique(s.free, t.free);
  }

  lemma RunRestores(hs: seq<Heap>, es: seq<Step>, arena: set<int>)
    requires Run(hs, es) && Invariant(hs[0], arena)
    requires Quiescent(hs[0]) && Quiescent(hs[|es|]) && hs[|es|].owned == hs[0].owned
    ensures hs[|es|].free == hs[0].free && hs[|es|].counter == hs[0].counter
  {
    RunsConverge(hs, es, [hs[0]], [], arena);
  }

  /** The 32-bit counter cannot wrap, even between the addition at the head of the
      critical section and the subtraction when the buddy is found. */
  lemma CounterInRange(s: Heap, arena: set<int>, c: nat)
    requires Invariant(s, arena) && c < |s.pending| && s.pending[c] != []
    ensures 0 <= s.counter && s.counter + s.pending[c][0].Size() <= HI - LO
  {
    var p := s.pending[c][0];
    HeadClear(s, arena, c);
    InsertCanonical(s.free, p);
    ClearIsDisjoint(s.free, p);
    TotalIsBytes(s.free);
    TotalIsBytes(Insert(s.free, p));
    RangeSize(p.addr, p.Size());
    assert |Bytes(s.free) + Span(p)| == |Bytes(s.free)| + |Span(p)|;
  }

  /** An upper bound on the critical sections a CPU still needs. */
  ghost function Work(q: seq<Block>): nat {
    if q == [] then 0 else (if q[0].bit <= 29 then 30 - q[0].bit else 0) + Work(q[1..])
  }

  /** Every critical section of a free makes progress: at most 28 an issued block,
      whatever the other CPUs do. */
  lemma LevelProgress(s: Heap, arena: set<int>, c: nat)
    requires Invariant(s, arena) && c < |s.pending| && s.pending[c] != []
    ensures Work(LevelHeap(s, c).pending[c]) < Work(s.pending[c])
    ensures forall d :: 0 <= d < |s.pending| && d != c ==> LevelHeap(s, c).pending[d] == s.pending[d]
  {
    var p, rest := s.pending[c][0], s.pending[c][1..];
    HeadClear(s, arena, c);
    OrderBound(p);
    if Buddy(p) in s.free {
      MergeBytes(s.free, p);
      OrderBound(Parent(p));
      assert ([Parent(p)] + rest)[1..] == rest;
    }
  }

  /** One CPU left alone with its first block: the critical sections it takes. */
  ghost function Finish(s: Heap, c: nat): Heap
    requires c < |s.pending| && s.pending[c] != [] && AllGood(s.free) && s.pending[c][0].Good()
    decreases 30 - s.pending[c][0].bit
  {
    var p := s.pending[c][0];
    OrderBound(p);
    if Buddy(p) in s.free then
      ParentGood(p);
      Finish(LevelHeap(s, c), c)
    else LevelHeap(s, c)
  }

  /** Undisturbed, the critical sections of one memory_block_free amount to one
      insertion of the block. */
  lemma {:induction false} FinishIsInsert(s: Heap, c: nat)
    requires c < |s.pending| && s.pending[c] != []
    requires Canonical(s.free) && s.pending[c][0].Good() && Clear(s.free, s.pending[c][0])
    ensures Finish(s, c) == s.(free := Insert(s.free, s.pending[c][0]),
                               counter := s.counter + s.pending[c][0].Size(),
                               pending := s.pending[c := s.pending[c][1..]])
    decreases 30 - s.pending[c][0].bit
  {
    var p := s.pending[c][0];
    OrderBound(p);
    if Buddy(p) in s.free {
      ParentGood(p);
      ParentClear(s.free, p);
      FinishIsInsert(LevelHeap(s, c), c);
    }
  }

  lemma {:induction false} LeastOrder(F: set<Block>, bit: nat) returns (p: Block)
    requires exists q :: q in F && bit <= q.bit
    ensures p in F && bit <= p.bit && forall q :: q in F && bit <= q.bit ==> p.bit <= q.bit
    decreases |F|
  {
    p :| p in F && bit <= p.bit;
    if q :| q in F && bit <= q.bit < p.bit {
      assert q in F - {p};
      p := LeastOrder(F - {p}, bit);
    }
  }

  lemma {:induction false} LeastAddress(F: set<Block>, k: nat) returns (p: Block)
    requires exists q :: q in F && q.bit == k
    requires AllGood(F)
    ensures p in F && p.bit == k && forall q :: q in F && q.bit == k ==> p.addr <= q.addr
    decreases |F|
  {
    p :| p in F && p.bit == k;
    if q :| q in F && q.bit == k && q.addr < p.addr {
      assert q in F - {p};
      p := LeastAddress(F - {p}, k);
    }
  }

  /** memory_alloc can take a block exactly when the listed bytes hold an aligned
      run of the size asked for; bytes in flight do not count. */
  lemma TakePossible(F: set<Block>, bit: nat)
    requires Canonical(F) && 2 <= bit
    ensures (exists addr, k :: FirstFit(F, addr, bit, k))
            <==> (exists p: Block :: p.bit == bit && p.Good() && Span(p) <= Bytes(F))
  {
    if p: Block :| p.bit == bit && p.Good() && Span(p) <= Bytes(F) {
      forall x | p.Has(x)
        ensures Covered(F, x)
      {
        assert x in Span(p);
      }
      var q := RunInsideBlock(F, p);
      var r := LeastOrder(F, bit);
      var b := LeastAddress(F, r.bit);
      assert FirstFit(F, b.addr, bit, b.bit);
    }
    if addr, k :| FirstFit(F, addr, bit, k) {
      SplitCanonical(F, addr, bit, k);
      assert Block(addr, bit).bit == bit;
    }
  }

  // ------------------------------------------- what is handed out and taken back

  /** memory_alloc's critical section hands out the first 2^bit bytes of the block it takes
      off the lists, and its CPU goes on to free the rest: one block at each order from bit to
      k - 1. No other CPU's blocks change. */
  lemma TakeHands(s: Heap, arena: set<int>, c: nat, addr: int, bit: nat, k: nat)
    requires Invariant(s, arena) && Enabled(s, Take(c, addr, bit, k))
    ensures var u := Next(s, Take(c, addr, bit, k));
            && u.free == s.free - {Block(addr, k)} && u.counter == s.counter - Pow2(k)
            && u.owned == s.owned + Range(addr, Pow2(bit)) && Range(addr, Pow2(bit)) <= Bytes(s.free)
            && s.owned !! Range(addr, Pow2(bit))
            && |u.pending| == |s.pending| && (forall d :: 0 <= d < |s.pending| && d != c ==> u.pending[d] == s.pending[d])
            && (forall j: nat :: bit <= j < k ==> Block(addr + Pow2(j), j) in u.pending[c])
            && (forall p :: p in u.pending[c] ==> bit <= p.bit < k && p.addr == addr + Pow2(p.bit))
            && ApartSeq(u.pending[c])
            && forall x :: Covered(Members(u.pending[c]), x) <==> addr + Pow2(bit) <= x < addr + Pow2(k)
  {
    hide Invariant, Pow2, Cut, Bytes, Range, Pieces, ApartSeq, Covered, Members;
    TakenApart(s, arena, addr, bit, k);
    TailPieces(addr, bit, k);
    PiecesAre(Cut(addr + Pow2(bit), Pow2(k) - Pow2(bit), 2), addr, bit, k);
  }

  lemma TakenApart(s: Heap, arena: set<int>, addr: int, bit: nat, k: nat)
    requires Invariant(s, arena) && 2 <= bit <= k && Block(addr, k) in s.free
    ensures Block(addr, k).Good() && Span(Block(addr, bit)) == Range(addr, Pow2(bit))
    ensures Range(addr, Pow2(bit)) <= Bytes(s.free) && s.owned !! Range(addr, Pow2(bit))
  {
    hide Canonical, Pow2, Aligned, Cuttable, Tiled, Total, Bytes;
    DetachKeeps(s, arena, Block(addr, k));
    SplitCanonical(s.free, addr, bit, k);
    SplitRange(addr, bit, k);
  }

  lemma PiecesAre(q: seq<Block>, addr: int, bit: nat, k: nat)
    requires Members(q) == Pieces(addr, bit, k)
    ensures forall j: nat :: bit <= j < k ==> Block(addr + Pow2(j), j) in q
    ensures forall p :: p in q ==> bit <= p.bit < k && p.addr == addr + Pow2(p.bit)
  {
    hide Pow2;
    forall j: nat | bit <= j < k
      ensures Block(addr + Pow2(j), j) in q
    {
      assert Block(addr + Pow2(j), j) in Pieces(addr, bit, k);
    }
    forall p | p in q
      ensures bit <= p.bit < k && p.addr == addr + Pow2(p.bit)
    {
      assert p in Members(q);
    }
  }

  /** memory_free_nocheck takes the bytes of the range back from their owner, in blocks that
      make it up. */
  lemma FreeTakes(s: Heap, arena: set<int>, c: nat, addr: int, n: int)
    requires Invariant(s, arena) && Enabled(s, StartFree(c, addr, n))
    ensures var u := Next(s, StartFree(c, addr, n));
            && u.free == s.free && u.counter == s.counter && u.owned == s.owned - Range(addr, n)
            && |u.pending| == |s.pending| && (forall d :: 0 <= d < |s.pending| && d != c ==> u.pending[d] == s.pending[d])
            && ApartSeq(u.pending[c])
            && forall x :: Covered(Members(u.pending[c]), x) <==> addr <= x < addr + n
  {
    hide Invariant, Cut, Cuttable;
    CutTiles(addr, n, 2);
  }

  /** memory_block_free does the same with one block. */
  lemma BlockTakes(s: Heap, arena: set<int>, c: nat, p: Block)
    requires Invariant(s, arena) && Enabled(s, StartBlock(c, p))
    ensures var u := Next(s, StartBlock(c, p));
            && u.free == s.free && u.counter == s.counter && u.owned == s.owned - Span(p)
            && |u.pending| == |s.pending| && (forall d :: 0 <= d < |s.pending| && d != c ==> u.pending[d] == s.pending[d])
            && u.pending[c] == [p]
  {
    hide Invariant;
  }

  /** CPU c left alone with all it has taken on. */
  ghost function FinishAll(s: Heap, arena: set<int>, c: nat): Heap
    requires Invariant(s, arena) && c < |s.pending|
    decreases if c < |s.pending| then |s.pending[c]| else 0
  {
    if s.pending[c] == [] then s
    else
      HeadClear(s, arena, c);
      FinishKeeps(s, arena, c);
      FinishAll(Finish(s, c), arena, c)
  }

  lemma {:induction false} FinishKeeps(s: Heap, arena: set<int>, c: nat)
    requires Invariant(s, arena) && c < |s.pending| && s.pending[c] != [] && s.pending[c][0].Good()
    ensures Invariant(Finish(s, c), arena) && Finish(s, c).owned == s.owned
    ensures Finish(s, c).pending == s.pending[c := s.pending[c][1..]]
    ensures Bytes(Finish(s, c).free) == Bytes(s.free) + Span(s.pending[c][0])
    decreases 30 - s.pending[c][0].bit
  {
    hide Tiled, Total, Bytes, Canonical;
    HeadClear(s, arena, c);
    FinishIsInsert(s, c);
    InsertCanonical(s.free, s.pending[c][0]);
    FinishInvariant(s, arena, c);
  }

  lemma {:induction false} FinishInvariant(s: Heap, arena: set<int>, c: nat)
    requires Invariant(s, arena) && c < |s.pending| && s.pending[c] != [] && s.pending[c][0].Good()
    ensures Invariant(Finish(s, c), arena)
    decreases 30 - s.pending[c][0].bit
  {
    hide Tiled, Total, Bytes;
    var p := s.pending[c][0];
    OrderBound(p);
    LevelKeeps(s, arena, c);
    if Buddy(p) in s.free {
      ParentGood(p);
      FinishInvariant(LevelHeap(s, c), arena, c);
    }
  }

  /** Undisturbed, a CPU adds just the bytes of its blocks to those that are free. */
  lemma {:induction false} FinishedBytes(s: Heap, arena: set<int>, c: nat)
    requires Invariant(s, arena) && c < |s.pending|
    ensures var u := FinishAll(s, arena, c);
            && Invariant(u, arena) && u.pending == s.pending[c := []] && u.owned == s.owned
            && forall x :: x in Bytes(u.free) <==> x in Bytes(s.free) || Covered(Members(s.pending[c]), x)
    decreases |s.pending[c]|
  {
    hide Invariant, Bytes;
    if s.pending[c] != [] {
      var q := s.pending[c];
      HeadClear(s, arena, c);
      ListedGood(s, arena);
      FinishKeeps(s, arena, c);
      FinishedBytes(Finish(s, c), arena, c);
      forall x
        ensures Covered(Members(q), x) <==> x in Span(q[0]) || Covered(Members(q[1..]), x)
      {
        FirstCovers(q, x);
      }
    }
  }

  lemma ListedGood(s: Heap, arena: set<int>)
    requires Invariant(s, arena)
    ensures AllGood(s.free)
  {
  }

  lemma FirstCovers(q: seq<Block>, x: int)
    requires q != []
    ensures Covered(Members(q), x) <==> x in Span(q[0]) || Covered(Members(q[1..]), x)
  {
    assert q == [q[0]] + [] + q[1..];
    CoveredParts([q[0]], [], q[1..], x);
  }

  /** So an allocation that nobody disturbs takes from the free bytes just what it hands
      out, as on one CPU. */
  lemma TakeFinished(s: Heap, arena: set<int>, c: nat, addr: int, bit: nat, k: nat)
    requires Invariant(s, arena) && Enabled(s, Take(c, addr, bit, k))
    ensures Invariant(Next(s, Take(c, addr, bit, k)), arena)
    ensures var u := FinishAll(Next(s, Take(c, addr, bit, k)), arena, c);
            && Bytes(u.free) == Bytes(s.free) - Range(addr, Pow2(bit)) && Canonical(u.free)
            && u.owned == s.owned + Range(addr, Pow2(bit)) && u.pending == s.pending
  {
    hide Canonical, Total, Tiled, Pow2, Cut, FinishAll, Next;
    var t := Next(s, Take(c, addr, bit, k));
    StepKeeps(s, arena, Take(c, addr, bit, k));
    TakeHands(s, arena, c, addr, bit, k);
    FinishedBytes(t, arena, c);
    DetachBytes(s.free, Block(addr, k));
    SplitRange(addr, bit, k);
    assert forall x :: x in Bytes(FinishAll(t, arena, c).free) <==> x in Bytes(s.free) - Range(addr, Pow2(bit));
    assert FinishAll(t, arena, c).pending == s.pending;
  }

  /** And a free adds just the bytes of its range. */
  lemma FreeFinished(s: Heap, arena: set<int>, c: nat, addr: int, n: int)
    requires Invariant(s, arena) && Enabled(s, StartFree(c, addr, n))
    ensures Invariant(Next(s, StartFree(c, addr, n)), arena)
    ensures var u := FinishAll(Next(s, StartFree(c, addr, n)), arena, c);
            && Bytes(u.free) == Bytes(s.free) + Range(addr, n) && Canonical(u.free)
            && u.owned == s.owned - Range(addr, n) && u.pending == s.pending
  {
    hide Canonical, Total, Tiled, Cut, FinishAll, Next;
    var t := Next(s, StartFree(c, addr, n));
    StepKeeps(s, arena, StartFree(c, addr, n));
    FreeTakes(s, arena, c, addr, n);
    FinishedBytes(t, arena, c);
    assert forall x :: x in Bytes(FinishAll(t, arena, c).free) <==> x in Bytes(s.free) + Range(addr, n);
    assert FinishAll(t, arena, c).pending == s.pending;
  }

  // -------------------------------------- the critical sections, on real memory

  /** The lists and the counter in memory are those of the heap s. */
  ghost predicate Shows(a: Allocator, s: Heap)
    reads a, a.mem, a.heads
  {
    a.Linked() && a.free == s.free && a.freeMemoryCounter == s.counter
  }

  /** What memory_block_free does under the lock is one Level step, and the block it goes
      on with is the one the step leaves first. */
  method LevelSection(a: Allocator, address: int, bit: nat, ghost s: Heap, ghost arena: set<int>, ghost c: nat)
    returns (merged: bool, up: int)
    requires Shows(a, s) && Invariant(s, arena) && c < |s.pending| && s.pending[c] != []
    requires s.pending[c][0] == Block(address, bit)
    modifies a, a.mem, a.heads
    ensures Shows(a, Next(s, Level(c)))
    ensures LevelHeap(s, c).pending[c] == (if merged then [Block(up, bit + 1)] else []) + s.pending[c][1..]
  {
    hide Spelled, Canonical, Total, Bytes, Clear, Tiled, ChangedInside;
    HeadClear(s, arena, c);
    merged, up := a.FreeLevel(address, bit);
    LevelTotal(s, arena, c);
  }

  lemma LevelTotal(s: Heap, arena: set<int>, c: nat)
    requires Invariant(s, arena) && c < |s.pending| && s.pending[c] != []
    ensures Enabled(s, Level(c)) && LevelHeap(s, c).counter == Total(LevelHeap(s, c).free)
  {
    hide Total, Tiled, Canonical;
    LevelKeeps(s, arena, c);
  }

  /** What memory_alloc does under the lock is one Take step, and the range it frees
      afterwards is what that step leaves its CPU to free; it finds nothing exactly if no such
      step can be taken. */
  method TakeSection(a: Allocator, bit: nat, ghost s: Heap, ghost arena: set<int>, ghost c: nat)
    returns (r: Option<int>, k: nat, tail: int, extra: int)
    requires Shows(a, s) && Invariant(s, arena) && c < |s.pending| && s.pending[c] == [] && 2 <= bit <= 29
    modifies a, a.mem, a.heads
    ensures r.None? ==> Shows(a, s) && forall addr, n :: !Enabled(s, Take(c, addr, bit, n))
    ensures r.Some? ==> Enabled(s, Take(c, r.value, bit, k)) && Shows(a, Next(s, Take(c, r.value, bit, k)))
    ensures r.Some? ==> forall x :: Covered(Members(Next(s, Take(c, r.value, bit, k)).pending[c]), x) <==> tail <= x < tail + extra
  {
    hide Canonical, Total, Bytes, Tiled, ChangedInside, NoRun, Chains, Cut, Pow2;
    TakePossible(s.free, bit);
    tail, extra := 0, 0;
    var found := a.FindList(bit);
    if found.None? {
      NoneToTake(s.free, bit);
      return None, 0, tail, extra;
    }
    k := found.value;
    FirstOfList(a.lists, s.free, bit, k);
    TotalRemove(s.free, Block(a.lists[k - 2][0], k));
    var getit := a.TakeFirst(k);
    tail, extra := getit + Pow2(bit), Pow2(k) - Pow2(bit);
    TakeHands(s, arena, c, getit, bit, k);
    r := Some(getit);
  }

  lemma NoneToTake(F: set<Block>, bit: nat)
    requires Canonical(F) && 2 <= bit && NoRun(F, bit)
    ensures forall addr, k :: !FirstFit(F, addr, bit, k)
  {
    hide Canonical;
    TakePossible(F, bit);
  }

  /** The first block of the first list that is not empty. */
  lemma FirstOfList(lists: FreeLists, F: set<Block>, bit: nat, k: nat)
    requires Holds(lists, F) && 2 <= bit <= k <= 29 && lists[k - 2] != [] && EmptyLists(lists, bit - 2, k - 2)
    ensures FirstFit(F, lists[k - 2][0], bit, k)
  {
    var addr := lists[k - 2][0];
    assert addr in lists[k - 2];
    forall q | q in F && bit <= q.bit
      ensures k <= q.bit && (q.bit == k ==> addr <= q.addr)
    {
      assert q.addr in lists[q.bit - 2];
    }
  }
}
