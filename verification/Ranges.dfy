// The decomposition memory_free_nocheck makes of a range, and the pieces a
// split leaves behind.
module Ranges {
  import opened Bits
  import opened Blocks

  /** The blocks issued from bit upward for a range of size bytes at addr,
      lowest order first, the low end before the high end. */
  function Cut(addr: int, size: int, bit: nat): seq<Block>
    decreases 32 - bit
  {
    if bit >= 32 || size < Pow2(bit) then []
    else
      var (addr1, size1) := AfterLow(addr, size, bit);
      Low(addr, bit) + High(addr1, size1, bit) + Cut(addr1, AfterHigh(size1, bit), bit + 1)
  }

  /** The block taken off the low end, if digit bit of the address is set. */
  function Low(addr: int, bit: nat): seq<Block> {
    if BitSet(addr, bit) then [Block(addr, bit)] else []
  }

  /** The block taken off the high end, if digit bit of the size is set. */
  function High(addr: int, size: int, bit: nat): seq<Block> {
    if BitSet(size, bit) then [Block(addr + size - Pow2(bit), bit)] else []
  }

  function AfterLow(addr: int, size: int, bit: nat): (int, int) {
    if BitSet(addr, bit) then (addr + Pow2(bit), size - Pow2(bit)) else (addr, size)
  }

  function AfterHigh(size: int, bit: nat): int {
    if BitSet(size, bit) then size - Pow2(bit) else size
  }

  ghost predicate Cuttable(addr: int, size: int, bit: nat) {
    LO <= addr && 0 <= size && addr + size <= HI && 2 <= bit
    && Aligned(addr, bit) && Aligned(size, bit)
  }

  lemma CutLow(addr: int, size: int, bit: nat)
    requires Cuttable(addr, size, bit) && size >= Pow2(bit)
    ensures BitSet(addr, bit) ==> Block(addr, bit).Good() && Buddy(Block(addr, bit)).addr < addr
    ensures var (addr1, size1) := AfterLow(addr, size, bit);
            && addr <= addr1 && addr1 + size1 == addr + size && 0 <= size1
            && Aligned(addr1, bit + 1) && Aligned(size1, bit)
  {
    BitFlip(addr, bit);
    AlignedSelf(bit);
    AlignedSum(size, Pow2(bit), bit);
  }

  lemma CutHigh(addr: int, size: int, bit: nat)
    requires 0 <= size && Aligned(addr, bit + 1) && Aligned(size, bit)
    ensures Aligned(AfterHigh(size, bit), bit + 1) && 0 <= AfterHigh(size, bit) <= size
    ensures BitSet(size, bit) ==>
              var p := Block(addr + size - Pow2(bit), bit);
              && addr <= p.addr && Aligned(p.addr, bit + 1) && Aligned(p.addr, bit)
              && Buddy(p).addr == addr + size
  {
    BitFlip(size, bit);
    if BitSet(size, bit) {
      AlignedPositiveBit(size, bit);
      AlignedSum(addr, size - Pow2(bit), bit + 1);
      assert addr + size - Pow2(bit) == addr + (size - Pow2(bit));
      AlignedStep(addr + size - Pow2(bit), bit);
    }
  }

  /** The facts about one turn of the loop. */
  lemma CutStep(addr: int, size: int, bit: nat)
    requires Cuttable(addr, size, bit) && size >= Pow2(bit)
    ensures bit < 30
    ensures BitSet(addr, bit) ==> Block(addr, bit).Good() && Buddy(Block(addr, bit)).addr < addr
    ensures var (addr1, size1) := AfterLow(addr, size, bit);
            && addr <= addr1 && addr1 + size1 == addr + size && 0 <= size1
            && Cuttable(addr1, AfterHigh(size1, bit), bit + 1)
            && AfterHigh(size1, bit) <= size1
            && (BitSet(size1, bit) ==>
                  var p := Block(addr1 + size1 - Pow2(bit), bit);
                  p.Good() && addr1 <= p.addr && Buddy(p).addr == addr + size)
  {
    CutBound(size, bit);
    CutLow(addr, size, bit);
    var (addr1, size1) := AfterLow(addr, size, bit);
    CutHigh(addr1, size1, bit);
  }

  /** The blocks one turn frees, and the range it leaves. */
  ghost function Ends(addr: int, size: int, bit: nat): seq<Block> {
    var (addr1, size1) := AfterLow(addr, size, bit);
    Low(addr, bit) + High(addr1, size1, bit)
  }

  ghost function EndBytes(addr: int, size: int, bit: nat): set<int> {
    var (addr1, size1) := AfterLow(addr, size, bit);
    Bytewise(Low(addr, bit)) + Bytewise(High(addr1, size1, bit))
  }

  ghost function Turn(addr: int, size: int, bit: nat): (int, int) {
    var (addr1, size1) := AfterLow(addr, size, bit);
    (addr1, AfterHigh(size1, bit))
  }

  lemma CutTurn(addr: int, size: int, bit: nat)
    requires Cuttable(addr, size, bit) && size >= Pow2(bit)
    ensures var (addr2, size2) := Turn(addr, size, bit);
            && bit < 30 && Cuttable(addr2, size2, bit + 1)
            && Cut(addr, size, bit) == Ends(addr, size, bit) + Cut(addr2, size2, bit + 1)
            && Range(addr2, size2) <= Range(addr, size)
            && EndBytes(addr, size, bit) == Range(addr, size) - Range(addr2, size2)
  {
    CutStep(addr, size, bit);
  }

  ghost function Bytewise(s: seq<Block>): set<int> {
    if s == [] then {} else Span(s[0])
  }

  ghost predicate GoodEnd(s: seq<Block>) {
    s != [] ==> s[0].Good()
  }

  lemma EndsInside(addr: int, size: int, bit: nat)
    requires Cuttable(addr, size, bit) && size >= Pow2(bit)
    ensures var (addr1, size1) := AfterLow(addr, size, bit);
            && GoodEnd(Low(addr, bit)) && GoodEnd(High(addr1, size1, bit))
            && Bytewise(Low(addr, bit)) <= Range(addr, size)
            && Bytewise(High(addr1, size1, bit)) <= Range(addr, size) - Bytewise(Low(addr, bit))
  {
    CutStep(addr, size, bit);
  }

  lemma CutBound(size: int, bit: nat)
    requires Pow2(bit) <= size <= HI - LO
    ensures bit < 30
  {
    if bit >= 30 {
      Pow2Monotone(30, bit);
      Pow2Of29();
      assert false;
    }
  }

  lemma AlignedPositiveBit(size: int, bit: nat)
    requires 0 <= size && Aligned(size, bit) && BitSet(size, bit)
    ensures Pow2(bit) <= size
  {
    AlignedZero(bit);
    AlignedPositive(size, bit);
  }

  /** No range inside the mapping is large enough to leave a remainder when
      the loop runs out of orders. */
  lemma CutExhausted(addr: int, size: int, bit: nat)
    requires 0 <= size <= HI - LO && Aligned(size, bit)
    requires bit >= 32 || size < Pow2(bit)
    ensures size == 0 && Cut(addr, size, bit) == []
  {
    if size > 0 {
      AlignedPositive(size, bit);
      CutBound(size, bit);
    }
  }

  ghost function Members(s: seq<Block>): set<Block> { set p | p in s }

  ghost predicate ApartSeq(s: seq<Block>) {
    forall i, j :: 0 <= i < j < |s| ==> Disjoint(s[i], s[j])
  }

  /** The blocks issued tile the range exactly: all aligned, inside it, pairwise
      disjoint, of order bit or more. */
  lemma {:induction false} CutTiles(addr: int, size: int, bit: nat)
    requires Cuttable(addr, size, bit)
    ensures forall p :: p in Cut(addr, size, bit) ==>
              p.Good() && bit <= p.bit && addr <= p.addr && p.End() <= addr + size
    ensures ApartSeq(Cut(addr, size, bit))
    ensures forall x :: Covered(Members(Cut(addr, size, bit)), x) <==> addr <= x < addr + size
    decreases 32 - bit
  {
    hide Aligned, BitSet, Pow2;
    var s := Cut(addr, size, bit);
    if bit >= 32 || size < Pow2(bit) {
      CutExhausted(addr, size, bit);
    } else {
      CutStep(addr, size, bit);
      var (addr1, size1) := AfterLow(addr, size, bit);
      var size2 := AfterHigh(size1, bit);
      var rest := Cut(addr1, size2, bit + 1);
      CutTiles(addr1, size2, bit + 1);
      var low := Low(addr, bit);
      var high := High(addr1, size1, bit);
      assert s == low + high + rest;
      forall x
        ensures Covered(Members(s), x) <==> addr <= x < addr + size
      {
        CoveredParts(low, high, rest, x);
      }
    }
  }

  lemma CoveredParts(low: seq<Block>, high: seq<Block>, rest: seq<Block>, x: int)
    ensures Covered(Members(low + high + rest), x)
            <==> Covered(Members(low), x) || Covered(Members(high), x) || Covered(Members(rest), x)
    ensures |low| == 1 ==> (Covered(Members(low), x) <==> low[0].Has(x))
    ensures |high| == 1 ==> (Covered(Members(high), x) <==> high[0].Has(x))
  {
    if |low| == 1 && low[0].Has(x) { assert low[0] in Members(low); }
    if |high| == 1 && high[0].Has(x) { assert high[0] in Members(high); }
    if Covered(Members(low), x) { var p :| p in low && p.Has(x); assert p in Members(low + high + rest); }
    if Covered(Members(high), x) { var p :| p in high && p.Has(x); assert p in Members(low + high + rest); }
    if Covered(Members(rest), x) { var p :| p in rest && p.Has(x); assert p in Members(low + high + rest); }
    if Covered(Members(low + high + rest), x) {
      var p :| p in low + high + rest && p.Has(x);
      if p in low { assert p in Members(low); }
      else if p in high { assert p in Members(high); }
      else { assert p in Members(rest); }
    }
  }

  lemma NoBuddyIn(s: seq<Block>, p: Block)
    requires NoBuddies(Members(s)) && p in s
    ensures Buddy(p) !in s
  {
    assert p in Members(s) && (Buddy(p) in Members(s) <==> Buddy(p) in s);
  }

  /** No two of the blocks issued are buddies. */
  lemma {:induction false} CutNoBuddies(addr: int, size: int, bit: nat)
    requires Cuttable(addr, size, bit)
    ensures NoBuddies(Members(Cut(addr, size, bit)))
    decreases 32 - bit
  {
    hide Aligned, BitSet, Pow2;
    if bit >= 32 || size < Pow2(bit) {
      assert Cut(addr, size, bit) == [];
    } else {
      CutStep(addr, size, bit);
      CutTiles(addr, size, bit);
      var (addr1, size1) := AfterLow(addr, size, bit);
      var rest := Cut(addr1, AfterHigh(size1, bit), bit + 1);
      CutTiles(addr1, AfterHigh(size1, bit), bit + 1);
      CutNoBuddies(addr1, AfterHigh(size1, bit), bit + 1);
      forall p | p in Cut(addr, size, bit)
        ensures Buddy(p) !in Cut(addr, size, bit)
      {
        if p in rest { NoBuddyIn(rest, p); }
      }
    }
  }

  /** The decomposition of a range is its canonical form, so it is the only
      fully coalesced set of blocks over that range. */
  lemma CutCanonical(addr: int, size: int)
    requires Cuttable(addr, size, 2)
    ensures Canonical(Members(Cut(addr, size, 2)))
    ensures Bytes(Members(Cut(addr, size, 2))) == Range(addr, size)
    ensures forall F :: Canonical(F) && Bytes(F) == Range(addr, size) ==> F == Members(Cut(addr, size, 2))
  {
    var s := Cut(addr, size, 2);
    CutTiles(addr, size, 2);
    CutNoBuddies(addr, size, 2);
    assert Bytes(Members(s)) == Range(addr, size);
    forall F | Canonical(F) && Bytes(F) == Range(addr, size)
      ensures F == Members(s)
    {
      CanonicalUnique(F, Members(s));
    }
  }

  ghost function CountOrder(s: seq<Block>, b: nat): nat {
    if s == [] then 0 else (if s[0].bit == b then 1 else 0) + CountOrder(s[1..], b)
  }

  lemma {:induction false} CountConcat(s: seq<Block>, t: seq<Block>, b: nat)
    ensures CountOrder(s + t, b) == CountOrder(s, b) + CountOrder(t, b)
  {
    if s == [] {
      assert s + t == t;
    } else {
      CountConcat(s[1..], t, b);
      assert (s + t)[1..] == s[1..] + t;
    }
  }

  lemma {:induction false} CountNone(s: seq<Block>, b: nat)
    requires forall p :: p in s ==> p.bit != b
    ensures CountOrder(s, b) == 0
  {
    if s == [] {
    } else {
      CountNone(s[1..], b);
    }
  }

  /** No order is issued more than twice. */
  lemma {:induction false} CutAtMostTwo(addr: int, size: int, bit: nat, b: nat)
    requires Cuttable(addr, size, bit)
    ensures CountOrder(Cut(addr, size, bit), b) <= 2
    decreases 32 - bit
  {
    if bit >= 32 || size < Pow2(bit) {
    } else {
      CutStep(addr, size, bit);
      var (addr1, size1) := AfterLow(addr, size, bit);
      var rest := Cut(addr1, AfterHigh(size1, bit), bit + 1);
      var low := Low(addr, bit);
      var high := High(addr1, size1, bit);
      CountConcat(low + high, rest, b);
      CountConcat(low, high, b);
      if b == bit {
        CutTiles(addr1, AfterHigh(size1, bit), bit + 1);
        CountNone(rest, b);
      } else {
        CutAtMostTwo(addr1, AfterHigh(size1, bit), bit + 1, b);
      }
    }
  }

  // ------------------------------------------------------------------ splits

  /** What a split of the order-k block at addr down to order bit puts back:
      one block at each order from bit to k - 1. */
  ghost function Pieces(addr: int, bit: nat, k: nat): set<Block> {
    set j: nat | bit <= j < k :: Block(addr + Pow2(j), j)
  }

  lemma PieceFacts(addr: int, k: nat, j: nat)
    requires Block(addr, k).Good() && 2 <= j < k
    ensures Block(addr + Pow2(j), j).Good() && Block(addr, j).Good()
    ensures addr + 2 * Pow2(j) <= addr + Pow2(k)
    ensures Buddy(Block(addr + Pow2(j), j)) == Block(addr, j)
  {
    hide Pow2, Aligned, BitSet;
    Pow2Monotone(j, k);
    AlignedLower(addr, k, j + 1);
    AlignedStep(addr, j);
    BitFlip(addr, j);
    BuddyFacts(Block(addr, j));
  }

  lemma PiecesInside(addr: int, bit: nat, k: nat)
    requires Block(addr, k).Good() && 2 <= bit <= k
    ensures Block(addr, bit).Good() && Pow2(bit) <= Pow2(k)
    ensures forall q :: q in Pieces(addr, bit, k) ==>
              && q.Good() && Buddy(q) == Block(addr, q.bit) && bit <= q.bit < k
              && addr + Pow2(bit) <= q.addr && q.End() <= addr + Pow2(k)
    ensures Apart(Pieces(addr, bit, k))
  {
    hide Pow2, Aligned, BitSet;
    Pow2Monotone(bit, k);
    AlignedLower(addr, k, bit);
    forall q | q in Pieces(addr, bit, k)
      ensures q.Good() && addr + Pow2(bit) <= q.addr && q.End() <= addr + Pow2(k) && Buddy(q) == Block(addr, q.bit)
    {
      PieceFacts(addr, k, q.bit);
      Pow2Monotone(bit, q.bit);
    }
    forall q, r | q in Pieces(addr, bit, k) && r in Pieces(addr, bit, k) && q != r
      ensures Disjoint(q, r)
    {
      if q.bit < r.bit {
        Pow2Monotone(q.bit, r.bit);
      } else {
        Pow2Monotone(r.bit, q.bit);
      }
    }
  }

  lemma {:induction false} PiecesCover(addr: int, bit: nat, k: nat, x: int)
    requires bit <= k && addr + Pow2(bit) <= x < addr + Pow2(k)
    ensures Covered(Pieces(addr, bit, k), x)
    decreases k
  {
    if k > bit {
      if x < addr + Pow2(k - 1) {
        PiecesCover(addr, bit, k - 1, x);
        var q :| q in Pieces(addr, bit, k - 1) && q.Has(x);
        assert q in Pieces(addr, bit, k);
      } else {
        assert Block(addr + Pow2(k - 1), k - 1) in Pieces(addr, bit, k);
      }
    }
  }

  lemma PiecesBytes(addr: int, bit: nat, k: nat)
    requires Block(addr, k).Good() && 2 <= bit <= k
    ensures Bytes(Pieces(addr, bit, k)) == Span(Block(addr, k)) - Span(Block(addr, bit))
  {
    PiecesInside(addr, bit, k);
    forall x | x in Span(Block(addr, k)) - Span(Block(addr, bit))
      ensures x in Bytes(Pieces(addr, bit, k))
    {
      PiecesCover(addr, bit, k, x);
    }
  }

  lemma BytesUnion(F: set<Block>, G: set<Block>)
    ensures Bytes(F + G) == Bytes(F) + Bytes(G)
  {
    forall x
      ensures x in Bytes(F + G) <==> x in Bytes(F) + Bytes(G)
    {
      if x in Bytes(F) {
        var p :| p in F && p.Has(x);
        assert p in F + G;
      }
      if x in Bytes(G) {
        var p :| p in G && p.Has(x);
        assert p in F + G;
      }
    }
  }

  /** Splitting a listed block takes exactly the allocated bytes out of the
      free set and leaves it fully coalesced: none of the pieces merges. */
  lemma SplitCanonical(F: set<Block>, addr: int, bit: nat, k: nat)
    requires Canonical(F) && Block(addr, k) in F && 2 <= bit <= k
    ensures Block(addr, bit).Good() && Span(Block(addr, bit)) <= Bytes(F)
    ensures Canonical(F - {Block(addr, k)} + Pieces(addr, bit, k))
    ensures Bytes(F - {Block(addr, k)} + Pieces(addr, bit, k)) == Bytes(F) - Span(Block(addr, bit))
  {
    var p := Block(addr, k);
    var P := Pieces(addr, bit, k);
    BytesRemove(F, p);
    PiecesInside(addr, bit, k);
    PiecesBytes(addr, bit, k);
    BytesUnion(F - {p}, P);
    forall q, r | q in F - {p} && r in P
      ensures Disjoint(q, r) && Disjoint(r, q) && Buddy(q) != r && Buddy(r) != q
    {
      assert Disjoint(p, q);
      Pow2Monotone(r.bit, k);
      assert Buddy(r) == Block(addr, r.bit);
      if Buddy(q) == r {
        BuddyFacts(q);
        assert false;
      }
    }
    PiecesApartFrom(F - {p}, P);
  }

  /** Two fully coalesced sets with no contact between them make one. */
  lemma PiecesApartFrom(F: set<Block>, P: set<Block>)
    requires Canonical(F) && AllGood(P) && Apart(P)
    requires forall r :: r in P ==> Buddy(r) !in P
    requires forall q, r :: q in F && r in P ==> Disjoint(q, r) && Disjoint(r, q) && Buddy(q) != r && Buddy(r) != q
    ensures Canonical(F + P)
  {
  }

  lemma SplitRange(addr: int, bit: nat, k: nat)
    requires Block(addr, k).Good() && 2 <= bit <= k
    ensures Cuttable(addr + Pow2(bit), Pow2(k) - Pow2(bit), 2)
    ensures Range(addr + Pow2(bit), Pow2(k) - Pow2(bit)) == Span(Block(addr, k)) - Span(Block(addr, bit))
    ensures Span(Block(addr, bit)) <= Span(Block(addr, k))
  {
    hide Aligned, Pow2;
    Pow2Monotone(bit, k);
    AlignedSelf(k);
    AlignedSelf(bit);
    AlignedLower(Pow2(k), k, 2);
    AlignedLower(Pow2(bit), bit, 2);
    AlignedLower(addr, k, 2);
    AlignedSum(addr, Pow2(bit), 2);
    AlignedSum(Pow2(k), Pow2(bit), 2);
  }

  /** The range behind the part asked for is cut into just those pieces, each once. */
  lemma TailPieces(addr: int, bit: nat, k: nat)
    requires Block(addr, k).Good() && 2 <= bit <= k
    ensures var tail := Cut(addr + Pow2(bit), Pow2(k) - Pow2(bit), 2);
            && Members(tail) == Pieces(addr, bit, k) && ApartSeq(tail)
            && forall x :: Covered(Members(tail), x) <==> addr + Pow2(bit) <= x < addr + Pow2(k)
  {
    hide Pow2, Aligned, BitSet, Cut, Pieces;
    var p, P := Block(addr, k), Pieces(addr, bit, k);
    SplitRange(addr, bit, k);
    CutTiles(addr + Pow2(bit), Pow2(k) - Pow2(bit), 2);
    CutCanonical(addr + Pow2(bit), Pow2(k) - Pow2(bit));
    AloneCanonical(p);
    SplitCanonical({p}, addr, bit, k);
    assert {p} - {p} + P == P;
  }

  lemma AloneCanonical(p: Block)
    requires p.Good()
    ensures Canonical({p}) && Bytes({p}) == Span(p)
  {
    BuddyFacts(p);
    assert Bytes({p}) == Span(p);
  }
}
