// Power-of-two blocks, and sets of them in canonical form.
module Blocks {
  import opened Bits

  /** Everything the allocator manages lies inside the kernel mapping: from
      PAGE_OFFSET up to PAGE_OFFSET + MAX_MAPPING. */
  const LO: int := 0xC000_0000
  const HI: int := 0xF000_0000

  datatype Block = Block(addr: int, bit: nat) {
    function Size(): nat { Pow2(bit) }
    function End(): int { addr + Pow2(bit) }
    ghost predicate Good() {
      LO <= addr && End() <= HI && 2 <= bit && Aligned(addr, bit)
    }
    predicate Has(x: int) { addr <= x < End() }
  }

  predicate Disjoint(p: Block, q: Block) {
    p.End() <= q.addr || q.End() <= p.addr
  }

  function Buddy(p: Block): Block {
    Block(if BitSet(p.addr, p.bit) then p.addr - p.Size() else p.addr + p.Size(), p.bit)
  }

  function Parent(p: Block): Block {
    Block(if BitSet(p.addr, p.bit) then p.addr - p.Size() else p.addr, p.bit + 1)
  }

  ghost predicate AllGood(F: set<Block>) {
    forall p :: p in F ==> p.Good()
  }

  ghost predicate Apart(F: set<Block>) {
    forall p, q :: p in F && q in F && p != q ==> Disjoint(p, q)
  }

  ghost predicate NoBuddies(F: set<Block>) {
    forall p :: p in F ==> Buddy(p) !in F
  }

  /** Aligned blocks of the kernel mapping, pairwise disjoint, fully coalesced. */
  ghost predicate Canonical(F: set<Block>) {
    AllGood(F) && Apart(F) && NoBuddies(F)
  }

  ghost predicate Clear(F: set<Block>, p: Block) {
    forall q :: q in F ==> Disjoint(q, p)
  }

  ghost predicate Covered(F: set<Block>, x: int) {
    exists p :: p in F && p.Has(x)
  }

  ghost function Bytes(F: set<Block>): set<int> {
    set x | LO <= x < HI && Covered(F, x)
  }

  ghost function Range(addr: int, n: int): (r: set<int>)
    ensures forall x :: x in r <==> addr <= x < addr + n
  {
    set x | addr <= x < addr + n && Within(x, addr, n)
  }

  predicate Within(x: int, addr: int, n: int) { addr <= x < addr + n }

  ghost function Span(p: Block): set<int> { Range(p.addr, p.Size()) }

  lemma OrderBound(p: Block)
    requires p.Good()
    ensures p.bit <= 29
  {
    if p.bit >= 30 {
      Pow2Monotone(30, p.bit);
      Pow2Of29();
      assert false;
    }
  }

  lemma BuddyFacts(p: Block)
    requires Aligned(p.addr, p.bit)
    ensures Buddy(Buddy(p)) == p && Buddy(p) != p && Disjoint(p, Buddy(p))
    ensures Aligned(Buddy(p).addr, p.bit)
    ensures Parent(Buddy(p)) == Parent(p)
    ensures Aligned(Parent(p).addr, p.bit + 1)
    ensures Parent(p).addr == if p.addr < Buddy(p).addr then p.addr else Buddy(p).addr
    ensures forall x :: Parent(p).Has(x) <==> p.Has(x) || Buddy(p).Has(x)
  {
    BitFlip(p.addr, p.bit);
  }

  /** Aligned blocks are nested or disjoint. */
  lemma Nested(p: Block, q: Block, x: int)
    requires Aligned(p.addr, p.bit) && Aligned(q.addr, q.bit)
    requires p.bit <= q.bit && p.Has(x) && q.Has(x)
    ensures q.addr <= p.addr && p.End() <= q.End()
  {
    AlignedLower(q.addr, q.bit, p.bit);
    AlignedSelf(q.bit);
    AlignedSum(q.addr, Pow2(q.bit), q.bit);
    AlignedLower(q.End(), q.bit, p.bit);
    if p.addr < q.addr {
      AlignedGap(p.addr, q.addr, p.bit);
      assert false;
    }
    AlignedGap(p.addr, q.End(), p.bit);
  }

  lemma SameBlock(F: set<Block>, p: Block, q: Block, x: int)
    requires Apart(F) && p in F && q in F && p.Has(x) && q.Has(x)
    ensures p == q
  {
  }

  lemma Halves(p: Block) returns (lower: Block, upper: Block)
    requires p.Good() && 2 < p.bit
    ensures lower.Good() && upper.Good() && Buddy(lower) == upper
    ensures lower == Block(p.addr, p.bit - 1) && upper == Block(p.addr + Pow2(p.bit - 1), p.bit - 1)
    ensures forall x :: p.Has(x) <==> lower.Has(x) || upper.Has(x)
  {
    lower, upper := Block(p.addr, p.bit - 1), Block(p.addr + Pow2(p.bit - 1), p.bit - 1);
    AlignedStep(p.addr, p.bit - 1);
    BitFlip(p.addr, p.bit - 1);
  }

  /** The maximality theorem: an aligned run of free bytes lies inside one
      listed block, because the blocks are fully coalesced. */
  lemma {:induction false} RunInsideBlock(F: set<Block>, p: Block) returns (q: Block)
    requires Canonical(F) && p.Good()
    requires forall x :: p.Has(x) ==> Covered(F, x)
    ensures q in F && p.bit <= q.bit && q.addr <= p.addr && p.End() <= q.End()
    decreases p.bit
  {
    if p.bit == 2 {
      assert p.Has(p.addr);
      q :| q in F && q.Has(p.addr);
      Nested(p, q, p.addr);
    } else {
      var lower, upper := Halves(p);
      var ql := RunInsideBlock(F, lower);
      var qu := RunInsideBlock(F, upper);
      if ql.bit >= p.bit {
        Nested(p, ql, lower.addr);
        q := ql;
      } else if qu.bit >= p.bit {
        Nested(p, qu, upper.addr);
        q := qu;
      } else {
        assert false;
      }
    }
  }

  lemma CanonicalSubset(F: set<Block>, G: set<Block>)
    requires Canonical(F) && Canonical(G) && Bytes(F) == Bytes(G)
    ensures F <= G
  {
    forall p | p in F
      ensures p in G
    {
      forall x | p.Has(x)
        ensures Covered(G, x)
      {
        assert x in Bytes(F);
        assert x in Bytes(G);
      }
      var q := RunInsideBlock(G, p);
      forall x | q.Has(x)
        ensures Covered(F, x)
      {
        assert x in Bytes(G);
        assert x in Bytes(F);
      }
      var r := RunInsideBlock(F, q);
      assert r.Has(p.addr) && p.Has(p.addr);
      SameBlock(F, p, r, p.addr);
      assert q.addr == p.addr && q.End() == p.End();
      if p.bit < q.bit {
        Pow2Monotone(p.bit, q.bit);
        assert false;
      }
    }
  }

  /** The canonical form theorem: the set of free bytes determines the blocks. */
  lemma CanonicalUnique(F: set<Block>, G: set<Block>)
    requires Canonical(F) && Canonical(G)
    ensures F == G <==> Bytes(F) == Bytes(G)
  {
    if Bytes(F) == Bytes(G) {
      CanonicalSubset(F, G);
      CanonicalSubset(G, F);
    }
  }

  /** Put one block into a canonical set, coalescing upward as
      memory_block_free does. */
  ghost function Insert(F: set<Block>, p: Block): (r: set<Block>)
    requires AllGood(F) && p.Good()
    ensures AllGood(r)
    decreases 30 - p.bit
  {
    OrderBound(p);
    if Buddy(p) in F then
      BuddyFacts(p);
      ParentGood(p);
      Insert(F - {Buddy(p)}, Parent(p))
    else
      F + {p}
  }

  lemma ParentGood(p: Block)
    requires p.Good() && Buddy(p).Good()
    ensures Parent(p).Good() && p.bit < 29
  {
    BuddyFacts(p);
    OrderBound(Parent(p));
  }

  lemma ParentClear(F: set<Block>, p: Block)
    requires Apart(F) && Aligned(p.addr, p.bit) && Buddy(p) in F && Clear(F, p)
    ensures Clear(F - {Buddy(p)}, Parent(p))
  {
    BuddyFacts(p);
    BitFlip(p.addr, p.bit);
    forall q | q in F - {Buddy(p)}
      ensures Disjoint(q, Parent(p))
    {
      assert Disjoint(q, p) && Disjoint(q, Buddy(p));
      assert q.Size() > 0;
    }
  }

  /** Freeing keeps the canonical form and adds exactly the block's bytes. */
  lemma {:induction false} InsertCanonical(F: set<Block>, p: Block)
    requires Canonical(F) && p.Good() && Clear(F, p)
    ensures Canonical(Insert(F, p))
    ensures Bytes(Insert(F, p)) == Bytes(F) + Span(p)
    decreases 30 - p.bit
  {
    OrderBound(p);
    BuddyFacts(p);
    var G := Insert(F, p);
    if Buddy(p) in F {
      ParentGood(p);
      ParentClear(F, p);
      InsertCanonical(F - {Buddy(p)}, Parent(p));
      BytesRemove(F, Buddy(p));
      assert Span(Parent(p)) == Span(p) + Span(Buddy(p));
    } else {
      forall q | q in G
        ensures Buddy(q) !in G
      {
        if q == p {
        } else if Buddy(q) == p {
          BuddyFacts(q);
          assert false;
        }
      }
      BytesAdd(F, p);
    }
  }

  lemma BytesAdd(F: set<Block>, p: Block)
    requires p.Good()
    ensures Bytes(F + {p}) == Bytes(F) + Span(p)
  {
    forall x
      ensures x in Bytes(F + {p}) <==> x in Bytes(F) + Span(p)
    {
      if x in Span(p) {
        assert p.Has(x);
      }
      if x in Bytes(F) {
        var q :| q in F && q.Has(x);
        assert q in F + {p};
      }
    }
  }

  lemma BytesRemove(F: set<Block>, p: Block)
    requires Apart(F) && p in F && p.Good()
    ensures Bytes(F - {p}) == Bytes(F) - Span(p)
    ensures Span(p) <= Bytes(F)
  {
    var G := F - {p};
    assert G + {p} == F;
    BytesAdd(G, p);
    forall x | x in Bytes(G)
      ensures x !in Span(p)
    {
      var q :| q in G && q.Has(x);
      assert Disjoint(p, q);
    }
  }

  lemma InBoth(F: set<Block>, p: Block, q: Block, x: int)
    requires AllGood(F) && p.Good() && q in F && q.Has(x) && p.Has(x)
    ensures x in Bytes(F) * Span(p)
  {
  }

  lemma ClearIsDisjoint(F: set<Block>, p: Block)
    requires AllGood(F) && p.Good()
    ensures Clear(F, p) <==> Bytes(F) !! Span(p)
  {
    if Bytes(F) !! Span(p) {
      forall q | q in F
        ensures Disjoint(q, p)
      {
        if !Disjoint(q, p) {
          var x := if q.addr < p.addr then p.addr else q.addr;
          InBoth(F, p, q, x);
          assert false;
        }
      }
    }
    if Clear(F, p) {
      forall x | x in Bytes(F)
        ensures x !in Span(p)
      {
        var q :| q in F && q.Has(x);
        assert Disjoint(q, p);
      }
    }
  }

  // ------------------------------------------------------------ the counter

  /** The sum of the block sizes, what freeMemoryCounter counts. */
  ghost function Total(F: set<Block>): nat {
    if F == {} then 0
    else
      var p :| p in F;
      p.Size() + Total(F - {p})
  }

  lemma {:induction false} TotalRemove(F: set<Block>, p: Block)
    requires p in F
    ensures Total(F) == p.Size() + Total(F - {p})
    decreases |F|
  {
    var q :| q in F && Total(F) == q.Size() + Total(F - {q});
    if q != p {
      TotalRemove(F - {q}, p);
      TotalRemove(F - {p}, q);
      assert F - {q} - {p} == F - {p} - {q};
    }
  }

  lemma RangeNext(addr: int, n: nat)
    requires n > 0
    ensures Range(addr, n) == Range(addr, n - 1) + {addr + n - 1} && addr + n - 1 !in Range(addr, n - 1)
  {
  }

  lemma {:induction false} RangeSize(addr: int, n: nat)
    ensures |Range(addr, n)| == n
  {
    if n > 0 {
      RangeSize(addr, n - 1);
      RangeNext(addr, n);
    }
  }

  /** The counter is the number of free bytes. */
  lemma {:induction false} TotalIsBytes(F: set<Block>)
    requires AllGood(F) && Apart(F)
    ensures Total(F) == |Bytes(F)| <= HI - LO
    decreases |F|
  {
    hide Aligned, Pow2;
    if F == {} {
      assert Bytes(F) == {};
    } else {
      var p :| p in F;
      TotalRemove(F, p);
      TotalIsBytes(F - {p});
      BytesRemove(F, p);
      RangeSize(p.addr, p.Size());
      assert Bytes(F) == Bytes(F - {p}) + Span(p);
      assert |Bytes(F)| == |Bytes(F - {p})| + |Span(p)|;
    }
    RangeSize(LO, HI - LO);
    SubsetSize(Bytes(F), Range(LO, HI - LO));
  }

  lemma SubsetSize(s: set<int>, t: set<int>)
    requires s <= t
    ensures |s| <= |t|
  {
    assert t == s + (t - s);
    assert |t| == |s| + |t - s|;
  }
}
