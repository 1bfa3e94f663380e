// The kernel buddy allocator (kernel/memory/memory.c): 28 address-sorted free
// lists, for orders 2 to 29, threaded through the first word of each free block.
module Memory {
  import opened Options
  import opened Bits
  import opened Blocks
  import opened Ranges
  import opened FreeLists
  import opened MallocSize

  /** The bytes on the lists, the bytes handed out, and their sum. */
  datatype Ledger = Ledger(free: set<int>, owned: set<int>, arena: set<int>) {
    ghost function Returned(R: set<int>): Ledger {
      Ledger(free + R, owned - R, arena + R)
    }
    ghost function Taken(R: set<int>): Ledger {
      Ledger(free - R, owned + R, arena)
    }
  }

  lemma ReturnedTwice(l: Ledger, R: set<int>, S: set<int>)
    ensures l.Returned(R).Returned(S) == l.Returned(R + S)
  {
    assert l.owned - R - S == l.owned - (R + S);
    assert l.free + R + S == l.free + (R + S);
    assert l.arena + R + S == l.arena + (R + S);
  }

  lemma ReturnedNothing(l: Ledger)
    ensures l.Returned({}) == l
  {
  }

  lemma TakenTwice(l: Ledger, R: set<int>, S: set<int>)
    ensures l.Taken(R).Taken(S) == l.Taken(R + S)
  {
    assert l.free - R - S == l.free - (R + S);
    assert l.owned + R + S == l.owned + (R + S);
  }

  /** Some of what was taken goes back. */
  lemma TakenLess(l: Ledger, R: set<int>, S: set<int>)
    requires S <= R <= l.free && l.free !! l.owned && l.free + l.owned == l.arena
    ensures l.Taken(R).Returned(S) == l.Taken(R - S)
  {
    assert l.free - R + S == l.free - (R - S);
    assert l.owned + R - S == l.owned + (R - S);
    assert l.arena + S == l.arena;
  }

  class Allocator {
    /** Word w is the memory at address LO + 4 * w. */
    const mem: array<int>
    const heads: array<int>
    var freeMemoryCounter: u32

    ghost var lists: FreeLists
    ghost var free: set<Block>
    /** The bytes handed out, and all the bytes ever put under management. */
    ghost var owned: set<int>
    ghost var arena: set<int>

    /** The words in memory and the heads spell out a canonical set of blocks. */
    ghost predicate Linked()
      reads this, mem, heads
    {
      && mem.Length == WORDS && heads.Length == ORDERS && mem != heads
      && Spelled(heads[..], mem[..], lists, free)
    }

    ghost predicate Valid()
      reads this, mem, heads
    {
      && Linked()
      && freeMemoryCounter == Total(free)
      && Bytes(free) !! owned && Bytes(free) + owned == arena
    }

    ghost function Books(): Ledger
      reads this
    {
      Ledger(Bytes(free), owned, arena)
    }

    /** All heads EMPTY, whatever memory holds. */
    constructor ()
      ensures Valid() && Books() == Ledger({}, {}, {}) && fresh(mem) && fresh(heads)
    {
      mem := new int[WORDS];
      heads := new int[ORDERS](_ => EMPTY);
      freeMemoryCounter := 0;
      lists := seq(ORDERS, _ => []);
      free, owned, arena := {}, {}, {};
      new;
      assert Bytes(free) == {};
    }

    /** A write of the block's owner, or of anyone outside the free bytes. */
    method Poke(addr: int, v: int)
      requires Valid() && Addressable(addr) && addr !in Bytes(free)
      modifies mem
      ensures Valid() && mem[..] == old(mem[..])[WordOf(addr) := v] && Books() == old(Books())
    {
      SpelledElsewhere(heads[..], mem[..], lists, free, addr, v);
      mem[(addr - LO) / 4] := v;
    }

    /** `*slot = v`, for a slot of the list of the given order. */
    method Store(slot: Slot, bit: nat, v: int)
      requires mem.Length == WORDS && heads.Length == ORDERS && mem != heads && 2 <= bit <= 29
      requires slot.Word? ==> Addressable(slot.addr)
      modifies mem, heads
      ensures (heads[..], mem[..]) == Stored(old(heads[..]), old(mem[..]), slot, bit - 2, v)
    {
      match slot {
        case Head => heads[bit - 2] := v;
        case Word(a) => mem[(a - LO) / 4] := v;
      }
    }

    /** `*prev = *entry` takes a block out of its list. */
    method Unlink(prev: Slot, entry: int, bit: nat, ghost i: nat)
      requires Linked() && 2 <= bit <= 29 && i < |lists[bit - 2]| && entry == lists[bit - 2][i]
      requires prev == SlotAt(lists[bit - 2], i)
      modifies this`lists, this`free, mem, heads
      ensures Linked() && free == old(free) - {Block(entry, bit)} && Block(entry, bit) in old(free)
      ensures ChangedInside(old(mem[..]), mem[..], Bytes(free))
    {
      hide ChangedInside, Bytes, Chains;
      Unlinked(heads[..], mem[..], lists, free, bit - 2, i);
      Store(prev, bit, mem[(entry - LO) / 4]);
      lists := lists[bit - 2 := Without(lists[bit - 2], i)];
      free := free - {Block(entry, bit)};
    }

    /** `*prev = ll; *ll = entry` puts a block into its list. */
    method Link(prev: Slot, address: int, entry: int, bit: nat, ghost i: nat)
      requires Linked() && 2 <= bit <= 29 && Between(lists[bit - 2], i, address)
      requires prev == SlotAt(lists[bit - 2], i) && entry == At(lists[bit - 2], i)
      requires Block(address, bit).Good() && Clear(free, Block(address, bit)) && Canonical(free + {Block(address, bit)})
      modifies this`lists, this`free, mem, heads
      ensures Linked() && free == old(free) + {Block(address, bit)}
      ensures ChangedInside(old(mem[..]), mem[..], Bytes(free))
    {
      LinkedIn(heads[..], mem[..], lists, free, bit - 2, i, address);
      Store(prev, bit, address);
      mem[(address - LO) / 4] := entry;
      lists := lists[bit - 2 := With(lists[bit - 2], i, address)];
      free := free + {Block(address, bit)};
    }

    /** `entry = *prev`, for the link stored in a listed block. */
    method Follow(entry: int, ghost k: nat, ghost i: nat) returns (next: int)
      requires Linked() && k < ORDERS && i < |lists[k]| && entry == lists[k][i]
      ensures next == At(lists[k], i + 1)
    {
      Unlinked(heads[..], mem[..], lists, free, k, i);
      next := mem[(entry - LO) / 4];
    }

    /** The loop of memory_block_free: walk the list up to the buddy, or to the
        place where the block belongs. */
    method Scan(address: int, bit: nat) returns (hit: bool, prev: Slot, entry: int, ghost i: nat)
      requires Linked() && Block(address, bit).Good() && bit <= 29 && Clear(free, Block(address, bit))
      ensures hit <==> Buddy(Block(address, bit)) in free
      ensures hit ==> Block(entry, bit) == Buddy(Block(address, bit)) && i < |lists[bit - 2]|
      ensures !hit ==> Between(lists[bit - 2], i, address)
      ensures i <= |lists[bit - 2]| && prev == SlotAt(lists[bit - 2], i) && entry == At(lists[bit - 2], i)
    {
      ghost var p, s := Block(address, bit), lists[bit - 2];
      var sizep := Pow2(bit);
      prev, entry, i := Head, heads[bit - 2], 0;
      while entry != EMPTY
        invariant Scanned(s, i, p) && prev == SlotAt(s, i) && entry == At(s, i)
        decreases |s| - i
      {
        ScanNext(lists, free, i, p);
        if entry > address {
          if !BitSet(address, bit) && address + sizep == entry {
            return true, prev, entry, i;
          }
          break;
        } else if BitSet(address, bit) && entry + sizep == address {
          return true, prev, entry, i;
        }
        var next := Follow(entry, bit - 2, i);
        prev, entry, i := Word(entry), next, i + 1;
      }
      hit := false;
      ScanNext(lists, free, i, p);
      ScanStops(lists, free, i, p);
    }

    /** What memory_block_free does while it holds the lock: if the buddy is listed, take
        it out, so that the merged block is next; otherwise link the block in at its
        place. */
    method FreeLevel(address: int, bit: nat) returns (merged: bool, up: int)
      requires Linked() && freeMemoryCounter == Total(free)
      requires Block(address, bit).Good() && Clear(free, Block(address, bit))
      modifies this`freeMemoryCounter, this`lists, this`free, mem, heads
      ensures Linked() && freeMemoryCounter == Total(free)
      ensures merged <==> Buddy(Block(address, bit)) in old(free)
      ensures merged ==> free == old(free) - {Buddy(Block(address, bit))} && Block(up, bit + 1) == Parent(Block(address, bit))
      ensures !merged ==> free == old(free) + {Block(address, bit)}
      ensures ChangedInside(old(mem[..]), mem[..], Bytes(free))
    {
      hide Clear, Canonical, Bytes, Total, ChangedInside, Spelled;
      SpelledCanonical(heads[..], mem[..], lists, free);
      FreeFacts(free, Block(address, bit));
      var sizep := Pow2(bit);
      var hit, prev, entry, i := Scan(address, bit);
      freeMemoryCounter := freeMemoryCounter + sizep;
      if hit {
        Unlink(prev, entry, bit, i);
        freeMemoryCounter := freeMemoryCounter - sizep * 2;
        merged, up := true, if entry > address then address else entry;
      } else {
        Link(prev, address, entry, bit, i);
        merged, up := false, 0;
      }
    }

    /** memory_block_free: level by level, the lock dropped in between. */
    method BlockFree(address: int, bit: nat)
      requires Linked() && freeMemoryCounter == Total(free)
      requires Block(address, bit).Good() && Clear(free, Block(address, bit))
      modifies this`freeMemoryCounter, this`lists, this`free, mem, heads
      ensures Linked() && freeMemoryCounter == Total(free)
      ensures free == Insert(old(free), Block(address, bit))
      ensures Bytes(free) == old(Bytes(free)) + Span(Block(address, bit))
      ensures ChangedInside(old(mem[..]), mem[..], Bytes(free))
      decreases 30 - bit
    {
      hide Clear, Canonical, Bytes, Total, ChangedInside, Spelled;
      ghost var m := mem[..];
      SpelledCanonical(heads[..], m, lists, free);
      FreeFacts(free, Block(address, bit));
      var merged, up := FreeLevel(address, bit);
      if merged {
        ghost var m1, B := mem[..], Bytes(free);
        BlockFree(up, bit + 1);
        ChangedTwice(m, m1, mem[..], B, Bytes(free));
      }
    }

    /** memory_block_free as its callers see it: the block returns from the bytes
        handed out. */
    method Return(address: int, bit: nat)
      requires Valid() && Block(address, bit).Good() && Span(Block(address, bit)) !! Bytes(free)
      modifies this, mem, heads
      ensures Valid()
      ensures Books() == old(Books()).Returned(Span(Block(address, bit)))
      ensures ChangedInside(old(mem[..]), mem[..], Bytes(free))
    {
      ClearIsDisjoint(free, Block(address, bit));
      BlockFree(address, bit);
      owned := owned - Span(Block(address, bit));
      arena := arena + Span(Block(address, bit));
    }

    /** `if(address&sizep)`: free the low end of the range. */
    method FreeLow(addr: int, n: int, bit: nat) returns (address: int, size: int)
      requires Valid() && GoodEnd(Low(addr, bit)) && Bytewise(Low(addr, bit)) !! Bytes(free)
      modifies this, mem, heads
      ensures Valid() && (address, size) == AfterLow(addr, n, bit)
      ensures Books() == old(Books()).Returned(Bytewise(Low(addr, bit)))
      ensures ChangedInside(old(mem[..]), mem[..], Bytes(free))
    {
      address, size := addr, n;
      if BitSet(address, bit) {
        Return(address, bit);
        address := address + Pow2(bit);
        size := size - Pow2(bit);
      } else {
        ReturnedNothing(Books());
      }
    }

    /** `if(size&sizep)`: free the high end of the range. */
    method FreeHigh(address: int, n: int, bit: nat) returns (size: int)
      requires Valid() && GoodEnd(High(address, n, bit)) && Bytewise(High(address, n, bit)) !! Bytes(free)
      modifies this, mem, heads
      ensures Valid() && size == AfterHigh(n, bit)
      ensures Books() == old(Books()).Returned(Bytewise(High(address, n, bit)))
      ensures ChangedInside(old(mem[..]), mem[..], Bytes(free))
    {
      size := n;
      if BitSet(size, bit) {
        Return(address + size - Pow2(bit), bit);
        size := size - Pow2(bit);
      } else {
        ReturnedNothing(Books());
      }
    }

    /** One turn of the loop of memory_free_nocheck. */
    method FreeEnds(addr: int, n: int, bit: nat) returns (address: int, size: int)
      requires Valid() && Cuttable(addr, n, bit) && Pow2(bit) <= n && Range(addr, n) !! Bytes(free)
      modifies this, mem, heads
      ensures Valid() && (address, size) == Turn(addr, n, bit)
      ensures Books() == old(Books()).Returned(EndBytes(addr, n, bit))
      ensures ChangedInside(old(mem[..]), mem[..], Bytes(free))
    {
      ghost var m, l := mem[..], Books();
      EndsInside(addr, n, bit);
      address, size := FreeLow(addr, n, bit);
      ghost var m1, l1 := mem[..], Books();
      ReturnedTwice(l, Bytewise(Low(addr, bit)), Bytewise(High(address, size, bit)));
      size := FreeHigh(address, size, bit);
      ChangedTwice(m, m1, mem[..], l1.free, Books().free);
    }

    /** memory_free_nocheck: cut the range into blocks from both ends and free
        each. */
    method FreeNoCheck(addr: int, n: int) returns (ghost issued: seq<Block>)
      requires Valid() && Cuttable(addr, n, 2) && Range(addr, n) !! Bytes(free)
      modifies this, mem, heads
      ensures Valid() && issued == Cut(addr, n, 2)
      ensures Books() == old(Books()).Returned(Range(addr, n))
      ensures ChangedInside(old(mem[..]), mem[..], Bytes(free))
    {
      var address, size := addr, n;
      hide Pow2, Aligned, BitSet, Spelled, ChangedInside, Cut, Turn, Ends, EndBytes, Bytes, Total;
      ghost var m, l, done := mem[..], Books(), {};
      ReturnedNothing(l);
      ChangedNothing(m, l.free);
      issued := [];
      var bit := 2;
      while bit < 32
        invariant 2 <= bit <= 32 && Valid() && Cuttable(address, size, bit)
        invariant issued + Cut(address, size, bit) == Cut(addr, n, 2)
        invariant done == Range(addr, n) - Range(address, size) && Range(address, size) <= Range(addr, n)
        invariant Books() == l.Returned(done)
        invariant ChangedInside(m, mem[..], Bytes(free))
      {
        if size < Pow2(bit) {
          break;
        }
        ghost var m1, B, more, ends := mem[..], Bytes(free), Ends(address, size, bit), EndBytes(address, size, bit);
        CutTurn(address, size, bit);
        ReturnedTwice(l, done, ends);
        issued, done := issued + more, done + ends;
        address, size := FreeEnds(address, size, bit);
        ChangedTwice(m, m1, mem[..], B, Bytes(free));
        bit := bit + 1;
      }
      CutExhausted(address, size, bit);
      assert done == Range(addr, n);
    }

    /** memory_free: whatever the range, free the whole words inside it. */
    method MemoryFree(addr: u32, n: u32)
      requires Valid() && addr + n <= WORD
      requires WholeWords(addr, n) <= Range(LO, HI - LO) && WholeWords(addr, n) !! Bytes(free)
      modifies this, mem, heads
      ensures Valid()
      ensures Books() == old(Books()).Returned(WholeWords(addr, n))
      ensures ChangedInside(old(mem[..]), mem[..], Bytes(free))
    {
      var address, size := Trim(addr, n);
      ReturnedNothing(Books());
      if size < 4 {
        return;
      }
      TrimmedCuttable(addr, n, address, size);
      var _ := FreeNoCheck(address, size);
    }

    /** `*head = *getit; freeMemoryCounter -= 1 << bit`: take the first block off a
        list. */
    method TakeFirst(bit: nat) returns (getit: int)
      requires Linked() && freeMemoryCounter == Total(free) && 2 <= bit <= 29 && lists[bit - 2] != []
      modifies this`freeMemoryCounter, this`lists, this`free, mem, heads
      ensures Linked() && freeMemoryCounter == Total(free)
      ensures getit == old(lists)[bit - 2][0] && Block(getit, bit) in old(free) && free == old(free) - {Block(getit, bit)}
      ensures ChangedInside(old(mem[..]), mem[..], Bytes(free))
    {
      HeadFacts(heads[..], mem[..], lists, free, bit - 2);
      getit := heads[bit - 2];
      TotalRemove(free, Block(getit, bit));
      Unlink(Head, getit, bit, 0);
      freeMemoryCounter := freeMemoryCounter - Pow2(bit);
    }

    /** Its bytes are handed out. */
    method Detach(bit: nat) returns (getit: int)
      requires Valid() && 2 <= bit <= 29 && lists[bit - 2] != []
      modifies this, mem, heads
      ensures Valid() && getit == old(lists)[bit - 2][0] && Block(getit, bit) in old(free)
      ensures free == old(free) - {Block(getit, bit)}
      ensures Books() == old(Books()).Taken(Span(Block(getit, bit)))
      ensures ChangedInside(old(mem[..]), mem[..], Bytes(free))
    {
      ghost var F := free;
      getit := TakeFirst(bit);
      BytesRemove(F, Block(getit, bit));
      owned := owned + Span(Block(getit, bit));
    }

    /** The search of memory_alloc: the first non-empty list from the order up,
        None where the kernel halts. */
    method FindList(bit: nat) returns (r: Option<nat>)
      requires Linked() && 2 <= bit <= 29
      ensures r.None? <==> NoRun(free, bit)
      ensures r.Some? ==> bit <= r.value <= 29 && lists[r.value - 2] != [] && EmptyLists(lists, bit - 2, r.value - 2)
    {
      var bit2 := bit - 2;
      var getit := heads[bit2];
      HeadFacts(heads[..], mem[..], lists, free, bit2);
      while getit == EMPTY
        invariant bit - 2 <= bit2 <= 27 && getit == heads[bit2]
        invariant EmptyLists(lists, bit - 2, bit2)
        invariant getit == EMPTY <==> lists[bit2] == []
        decreases 27 - bit2
      {
        if bit2 == 27 {
          EmptyMeansNoRun(lists, free, bit);
          return None;
        }
        bit2 := bit2 + 1;
        getit := heads[bit2];
        HeadFacts(heads[..], mem[..], lists, free, bit2);
      }
      ListedRun(lists, free, bit, bit2 + 2);
      r := Some(bit2 + 2);
    }

    /** memory_alloc. None stands for the halt with interrupts off in which the
        kernel ends when no list of the order or above has a block. */
    method MemoryAlloc(bit: nat) returns (r: Option<int>, ghost k: nat)
      requires Valid() && 2 <= bit <= 29
      modifies this, mem, heads
      ensures Valid()
      ensures r.None? <==> old(NoRun(free, bit))
      ensures r.None? ==> unchanged(this) && unchanged(mem) && unchanged(heads)
      ensures r.Some? ==>
                && bit <= k <= 29 && old(LowestSufficient(lists, bit, k, r.value))
                && free == old(free) - {Block(r.value, k)} + Pieces(r.value, bit, k)
                && Block(r.value, bit).Good() && Span(Block(r.value, bit)) <= old(Bytes(free))
                && Books() == old(Books()).Taken(Span(Block(r.value, bit)))
      ensures ChangedInside(old(mem[..]), mem[..], Bytes(free))
    {
      hide Pow2, Aligned, BitSet, Canonical, Chains, ChangedInside, Total, Pieces, NoRun;
      ChangedNothing(mem[..], Bytes(free));
      var found := FindList(bit);
      if found.None? {
        return None, 0;
      }
      var bit2 := found.value;
      k := bit2;
      ghost var F, m, l := free, mem[..], Books();
      var getit := Detach(bit2);
      ghost var m1, l1 := mem[..], Books();
      SplitFacts(F, getit, bit, k, l);
      if bit < bit2 {
        var tail, extra := getit + Pow2(bit), Pow2(bit2) - Pow2(bit);
        assert Cuttable(tail, extra, 2);
        var _ := FreeNoCheck(tail, extra);
        ChangedTwice(m, m1, mem[..], l1.free, Books().free);
      } else {
        ReturnedNothing(l1);
      }
      r := Some(getit);
      CanonicalUnique(free, F - {Block(getit, k)} + Pieces(getit, bit, k));
    }

    /** malloc: a block whose first word holds its size. */
    method Malloc(n: u32) returns (r: Option<int>)
      requires Valid()
      modifies this, mem, heads
      ensures Valid()
      ensures r.None? <==> OrderFor(n) > 29 || old(NoRun(free, OrderFor(n)))
      ensures r.None? ==> unchanged(this) && unchanged(mem) && unchanged(heads)
      ensures r.Some? ==>
                var p := Block(r.value - 4, OrderFor(n));
                && p.Good() && Span(p) <= old(Bytes(free)) && Books() == old(Books()).Taken(Span(p))
                && Addressable(p.addr) && mem[WordOf(p.addr)] == Pow2(p.bit)
                && ChangedInside(old(mem[..]), mem[..], Bytes(free) + {p.addr})
    {
      hide Pow2, Aligned, BitSet, Canonical, Spelled, ChangedInside, Total, NoRun, Pieces, OrderFor;
      var bit := ChooseOrder(n);
      if bit > 29 {
        return None;
      }
      ghost var m0 := mem[..];
      var getit, _ := MemoryAlloc(bit);
      if getit.None? {
        return None;
      }
      var a := getit.value;
      ghost var m1, p := mem[..], Block(a, bit);
      HeaderWord(p);
      SpelledElsewhere(heads[..], m1, lists, free, a, Pow2(bit));
      mem[(a - LO) / 4] := Pow2(bit);
      HeaderChanged(m0, m1, Bytes(free), a, Pow2(bit));
      r := Some(a + 4);
    }

    /** free: the size is read back from the word before the pointer. */
    method Free(addr: int, ghost bit: nat)
      requires Valid() && Block(addr - 4, bit).Good() && Span(Block(addr - 4, bit)) <= owned
      requires Addressable(addr - 4) && mem[WordOf(addr - 4)] == Pow2(bit)
      modifies this, mem, heads
      ensures Valid()
      ensures Books() == old(Books()).Returned(Span(Block(addr - 4, bit)))
      ensures ChangedInside(old(mem[..]), mem[..], Bytes(free))
    {
      var ad := addr - 4;
      HeaderCuttable(Block(ad, bit));
      var _ := FreeNoCheck(ad, mem[(ad - LO) / 4]);
    }

    /** free undoes malloc: every list, head and counter is back. */
    method MallocThenFree(n: u32)
      requires Valid()
      modifies this, mem, heads
      ensures Valid() && lists == old(lists) && heads[..] == old(heads[..])
      ensures freeMemoryCounter == old(freeMemoryCounter)
    {
      ghost var L, F, h, l := lists, free, heads[..], Books();
      var r := Malloc(n);
      if r.Some? {
        Free(r.value, OrderFor(n));
        TakenReturned(l, Span(Block(r.value - 4, OrderFor(n))));
        HeapDetermined(h, L, F, heads[..], lists, free);
      }
    }
  }

  lemma HeaderWord(p: Block)
    requires p.Good()
    ensures Addressable(p.addr) && p.addr in Span(p)
  {
    AlignedLower(p.addr, p.bit, 2);
    Aligned2(p.addr);
  }

  lemma HeaderCuttable(p: Block)
    requires p.Good()
    ensures Cuttable(p.addr, Pow2(p.bit), 2)
  {
    AlignedLower(p.addr, p.bit, 2);
    AlignedSelf(p.bit);
    AlignedLower(Pow2(p.bit), p.bit, 2);
  }

  lemma HeaderChanged(m: seq<int>, n: seq<int>, B: set<int>, a: int, v: int)
    requires ChangedInside(m, n, B) && Addressable(a) && |n| == WORDS
    ensures ChangedInside(m, n[WordOf(a) := v], B + {a})
  {
    WordAddress(a);
  }

  lemma TakenReturned(l: Ledger, R: set<int>)
    requires R <= l.free && l.free !! l.owned && l.free + l.owned == l.arena
    ensures l.Taken(R).Returned(R) == l
  {
    assert l.Taken(R).Returned(R).owned == l.owned;
  }

  /** The whole heap, heads, lists and counter, is a function of the free bytes. */
  lemma HeapDetermined(h: seq<int>, s: FreeLists, F: set<Block>, h2: seq<int>, t: FreeLists, G: set<Block>)
    requires Holds(s, F) && Canonical(F) && Holds(t, G) && Canonical(G) && Bytes(F) == Bytes(G)
    requires |h| == |h2| == ORDERS && forall k :: 0 <= k < ORDERS ==> h[k] == At(s[k], 0) && h2[k] == At(t[k], 0)
    ensures s == t && F == G && Total(F) == Total(G) && h == h2
  {
    ListsDetermined(s, F, t, G);
  }

  /** Taking the order-k block and returning its tail is taking the order-bit
      block at its start. */
  lemma SplitFacts(F: set<Block>, addr: int, bit: nat, k: nat, l: Ledger)
    requires Canonical(F) && Block(addr, k) in F && 2 <= bit <= k
    requires l.free == Bytes(F) && l.free !! l.owned && l.free + l.owned == l.arena
    ensures var R := Range(addr + Pow2(bit), Pow2(k) - Pow2(bit));
            var G := F - {Block(addr, k)} + Pieces(addr, bit, k);
            var p := Block(addr, bit);
            && p.Good() && Span(p) <= Bytes(F)
            && (bit < k ==> Cuttable(addr + Pow2(bit), Pow2(k) - Pow2(bit), 2))
            && (bit == k ==> R == {})
            && R !! l.Taken(Span(Block(addr, k))).free
            && l.Taken(Span(Block(addr, k))).Returned(R) == l.Taken(Span(p))
            && Canonical(G) && Bytes(G) == Bytes(F) - Span(p)
  {
    hide Canonical, Bytes, Span, Range, Pow2, Aligned, Cuttable, Pieces;
    SplitCanonical(F, addr, bit, k);
    RemoveBlock(F, Block(addr, k));
    SplitRange(addr, bit, k);
    SplitBooks(l, Span(Block(addr, k)), Span(Block(addr, bit)), Range(addr + Pow2(bit), Pow2(k) - Pow2(bit)));
  }

  lemma RemoveBlock(F: set<Block>, p: Block)
    requires Canonical(F) && p in F
    ensures p.Good() && Span(p) <= Bytes(F)
  {
    BytesRemove(F, p);
  }

  /** Taking the whole and returning the rest is taking the part. */
  lemma SplitBooks(l: Ledger, whole: set<int>, part: set<int>, rest: set<int>)
    requires part <= whole <= l.free && rest == whole - part && l.free !! l.owned && l.free + l.owned == l.arena
    ensures rest !! l.Taken(whole).free && l.Taken(whole).Returned(rest) == l.Taken(part)
  {
    assert l.free - whole + rest == l.free - part;
    assert l.owned + whole - rest == l.owned + part;
    assert l.arena + rest == l.arena;
  }

  lemma ListedRun(lists: FreeLists, F: set<Block>, bit: nat, k: nat)
    requires Holds(lists, F) && Canonical(F) && 2 <= bit <= k <= 29 && lists[k - 2] != []
    ensures !NoRun(F, bit)
  {
    var addr := lists[k - 2][0];
    assert addr in lists[k - 2];
    SplitCanonical(F, addr, bit, k);
    assert Block(addr, bit).bit == bit;
  }

  /** The alignment arithmetic of memory_free; size 0 stands for its returns. */
  method Trim(addr: u32, n: u32) returns (address: u32, size: u32)
    requires addr + n <= WORD
    ensures size >= 4 ==> Range(address, size) == WholeWords(addr, n) && address % 4 == 0 && size % 4 == 0
    ensures size < 4 ==> WholeWords(addr, n) == {}
  {
    hide WholeWords, Range, Up4, Down4;
    address, size := addr, n;
    WordsOfRange(addr, n);
    UpFacts(addr);
    if size < 4 {
      ShortRange(addr, n);
      return;
    }
    if address % 4 != 0 {
      var afadd := address - address % 4 + 4;
      size := (size + address - afadd) % WORD;
      if size < 4 {
        ShortRange(addr, n);
        return;
      }
      address := afadd;
    }
    assert address == Up4(addr) && address + size == addr + n;
    DownFacts(address, size);
    if size % 4 != 0 {
      size := size - size % 4;
    }
  }

  lemma UpFacts(x: int)
    ensures Up4(x) == (if x % 4 == 0 then x else x - x % 4 + 4) && Up4(x) % 4 == 0 && x <= Up4(x) <= x + 3
  {
  }

  /** Less than four bytes after the rounding hold no whole word. */
  lemma ShortRange(addr: int, n: int)
    requires addr + n < Up4(addr) + 4
    ensures Down4(addr + n) <= Up4(addr)
  {
    var p, q := Up4(addr) / 4, (addr + n) / 4;
    assert Up4(addr) == 4 * p && addr + n == 4 * q + (addr + n) % 4;
  }

  lemma DownFacts(address: int, size: int)
    requires address % 4 == 0
    ensures address + (size - size % 4) == Down4(address + size) && (size - size % 4) % 4 == 0
    ensures size >= 4 ==> size - size % 4 >= 4
  {
  }

  function Up4(x: int): int { if x % 4 == 0 then x else x - x % 4 + 4 }

  function Down4(x: int): int { x - x % 4 }

  /** The word x lies in, against a bound that may cut through a word. */
  lemma WordBounds(bound: int, x: int)
    ensures bound <= x - x % 4 <==> Up4(bound) <= x
    ensures x - x % 4 + 4 <= bound <==> x < Down4(bound)
  {
    var p, q := bound / 4, x / 4;
    assert bound == 4 * p + bound % 4 && x == 4 * q + x % 4;
  }

  lemma WordsOfRange(addr: int, n: int)
    requires 0 <= n
    ensures WholeWords(addr, n) == Range(Up4(addr), Down4(addr + n) - Up4(addr))
    ensures Down4(addr + n) <= Up4(addr) ==> WholeWords(addr, n) == {}
  {
    forall x
      ensures x in WholeWords(addr, n) <==> Up4(addr) <= x < Down4(addr + n)
    {
      WordBounds(addr, x);
      WordBounds(addr + n, x);
    }
  }

  lemma TrimmedCuttable(addr: u32, n: u32, address: u32, size: u32)
    requires size >= 4 && Range(address, size) == WholeWords(addr, n) && address % 4 == 0 && size % 4 == 0
    requires WholeWords(addr, n) <= Range(LO, HI - LO)
    ensures Cuttable(address, size, 2)
  {
    Aligned2(address);
    Aligned2(size);
    assert address in Range(address, size) && address + size - 1 in Range(address, size);
  }

  /** The bytes of the 4-aligned words that lie wholly inside the range. */
  ghost function WholeWords(addr: int, n: int): set<int> {
    set x | x in Range(addr, n) && addr <= x - x % 4 && x - x % 4 + 4 <= addr + n
  }

  /** No aligned run of 2^bit free bytes exists anywhere. */
  ghost predicate NoRun(F: set<Block>, bit: nat) {
    forall p: Block :: p.bit == bit && p.Good() ==> !(Span(p) <= Bytes(F))
  }

  ghost predicate EmptyLists(lists: FreeLists, i: nat, k: nat)
    requires k <= |lists|
  {
    forall j :: i <= j < k ==> lists[j] == []
  }

  lemma EmptyMeansNoRun(lists: FreeLists, F: set<Block>, bit: nat)
    requires Holds(lists, F) && Canonical(F) && 2 <= bit <= 29 && EmptyLists(lists, bit - 2, ORDERS)
    ensures NoRun(F, bit)
  {
    forall p: Block | p.bit == bit && p.Good()
      ensures !(Span(p) <= Bytes(F))
    {
      if Span(p) <= Bytes(F) {
        forall x | p.Has(x)
          ensures Covered(F, x)
        {
          assert x in Span(p);
        }
        var q := RunInsideBlock(F, p);
        OrderBound(q);
        assert false;
      }
    }
  }

  /** The lowest-addressed block of the smallest order that suffices. */
  ghost predicate LowestSufficient(lists: FreeLists, bit: nat, k: nat, addr: int)
    requires |lists| == ORDERS && 2 <= bit <= k <= 29
  {
    && EmptyLists(lists, bit - 2, k - 2)
    && lists[k - 2] != [] && addr == lists[k - 2][0]
  }

  lemma FreeFacts(F: set<Block>, p: Block)
    requires Canonical(F) && p.Good() && Clear(F, p)
    ensures p.bit <= 29 && Total(F) + p.Size() < WORD
    ensures Canonical(Insert(F, p)) && Bytes(Insert(F, p)) == Bytes(F) + Span(p)
    ensures Total(Insert(F, p)) == Total(F) + p.Size()
    ensures Buddy(p) in F ==>
              && Parent(p).Good() && Clear(F - {Buddy(p)}, Parent(p)) && Canonical(F - {Buddy(p)})
              && Total(F - {Buddy(p)}) == Total(F) - p.Size()
              && Insert(F, p) == Insert(F - {Buddy(p)}, Parent(p))
    ensures Buddy(p) !in F ==> Insert(F, p) == F + {p}
  {
    OrderBound(p);
    InsertCanonical(F, p);
    TotalIsBytes(F);
    TotalIsBytes(Insert(F, p));
    RangeSize(p.addr, p.Size());
    ClearIsDisjoint(F, p);
    if Buddy(p) in F {
      BuddyFacts(p);
      ParentGood(p);
      ParentClear(F, p);
      TotalRemove(F, Buddy(p));
    }
  }
}
