// Lists threaded through memory words, and how they spell out a set of blocks.
module FreeLists {
  import opened Bits
  import opened Blocks

  const EMPTY: int := 0xFFFF_FFFF
  const ORDERS: int := 28
  const WORDS: int := 0xC00_0000

  type FreeLists = seq<seq<int>>

  ghost predicate Sorted(s: seq<int>) {
    forall i, j :: 0 <= i < j < |s| ==> s[i] < s[j]
  }

  /** Position i is where a belongs. */
  ghost predicate Between(s: seq<int>, i: nat, a: int) {
    && i <= |s|
    && (forall j :: 0 <= j < i ==> s[j] < a)
    && (forall j :: i <= j < |s| ==> a < s[j])
  }

  function WordOf(addr: int): int { (addr - LO) / 4 }

  /** An address whose word exists. */
  predicate Addressable(a: int) { LO <= a < HI && a % 4 == 0 }

  /** The link that leads to position i of a list. */
  ghost function At(s: seq<int>, i: int): int {
    if 0 <= i < |s| then s[i] else EMPTY
  }

  /** Following the links from head through memory spells out s. */
  ghost predicate Chain(head: int, mem: seq<int>, s: seq<int>) {
    && |mem| == WORDS && Sorted(s) && head == At(s, 0)
    && (forall i :: 0 <= i < |s| ==> LinkAt(mem, s, i))
  }

  ghost predicate LinkAt(mem: seq<int>, s: seq<int>, i: int)
    requires |mem| == WORDS && 0 <= i < |s|
  {
    Addressable(s[i]) && mem[WordOf(s[i])] == At(s, i + 1)
  }

  ghost function Without(s: seq<int>, i: nat): (r: seq<int>)
    requires i < |s|
    ensures |r| == |s| - 1
    ensures forall j :: 0 <= j < |r| ==> r[j] == if j < i then s[j] else s[j + 1]
  {
    s[..i] + s[i + 1..]
  }

  ghost function With(s: seq<int>, i: nat, a: int): (r: seq<int>)
    requires i <= |s|
    ensures |r| == |s| + 1
    ensures forall j :: 0 <= j < |r| ==> r[j] == if j < i then s[j] else if j == i then a else s[j - 1]
  {
    s[..i] + [a] + s[i..]
  }

  /** Distinct addressable words sit at distinct indices. */
  lemma WordsDiffer(a: int, b: int)
    requires Addressable(a) && Addressable(b) && a != b
    ensures WordOf(a) != WordOf(b) && 0 <= WordOf(a) < WORDS && 0 <= WordOf(b) < WORDS
  {
  }

  lemma WordInside(a: int)
    requires Addressable(a)
    ensures 0 <= WordOf(a) < WORDS
  {
  }

  lemma ChainUnlink(head: int, mem: seq<int>, s: seq<int>, i: nat)
    requires Chain(head, mem, s) && i < |s|
    ensures i == 0 ==> Chain(At(s, 1), mem, Without(s, 0))
    ensures i > 0 ==> LinkAt(mem, s, i - 1) && Chain(head, mem[WordOf(s[i - 1]) := At(s, i + 1)], Without(s, i))
  {
    var t := Without(s, i);
    var m := if i == 0 then mem else assert LinkAt(mem, s, i - 1); mem[WordOf(s[i - 1]) := At(s, i + 1)];
    forall j | 0 <= j < |t|
      ensures LinkAt(m, t, j)
    {
      assert LinkAt(mem, s, j) && LinkAt(mem, s, j + 1);
      if i > 0 && j != i - 1 {
        assert LinkAt(mem, s, i - 1);
        WordsDiffer(t[j], s[i - 1]);
      }
    }
  }

  /** `*prev = a; *a = entry` puts a at position i. */
  lemma ChainLink(head: int, mem: seq<int>, s: seq<int>, i: nat, a: int)
    requires Chain(head, mem, s) && Addressable(a)
    requires Between(s, i, a)
    ensures i == 0 ==> Chain(a, mem[WordOf(a) := At(s, 0)], With(s, 0, a))
    ensures i > 0 ==> LinkAt(mem, s, i - 1) && Chain(head, mem[WordOf(s[i - 1]) := a][WordOf(a) := At(s, i)], With(s, i, a))
  {
    hide WordOf, Addressable;
    WordInside(a);
    if i > 0 {
      assert LinkAt(mem, s, i - 1);
      WordInside(s[i - 1]);
    }
    var t := With(s, i, a);
    var m := if i == 0 then mem[WordOf(a) := At(s, 0)]
             else mem[WordOf(s[i - 1]) := a][WordOf(a) := At(s, i)];
    forall j | 0 <= j < |t|
      ensures LinkAt(m, t, j)
    {
      if j < i {
        assert LinkAt(mem, s, j);
        WordsDiffer(t[j], a);
        if j < i - 1 { WordsDiffer(t[j], s[i - 1]); }
      } else if j > i {
        assert LinkAt(mem, s, j - 1);
        WordsDiffer(t[j], a);
        if i > 0 { WordsDiffer(t[j], s[i - 1]); }
      }
    }
  }

  lemma ChainElsewhere(head: int, mem: seq<int>, s: seq<int>, a: int, v: int)
    requires Chain(head, mem, s) && Addressable(a) && a !in s
    ensures Chain(head, mem[WordOf(a) := v], s)
  {
    var m := mem[WordOf(a) := v];
    forall i | 0 <= i < |s|
      ensures LinkAt(m, s, i)
    {
      assert LinkAt(mem, s, i) && s[i] in s;
      WordsDiffer(s[i], a);
    }
  }

  /** The lists hold exactly the blocks of F, one list an order, by address. */
  ghost predicate Holds(lists: FreeLists, F: set<Block>) {
    && |lists| == ORDERS
    && (forall k :: 0 <= k < ORDERS ==> Sorted(lists[k]))
    && (forall k, a :: 0 <= k < ORDERS && a in lists[k] ==> Block(a, k + 2) in F)
    && (forall p :: p in F ==> 2 <= p.bit <= 29 && p.addr in lists[p.bit - 2])
  }

  lemma SortedInjective(s: seq<int>, i: nat, x: int)
    requires Sorted(s) && i < |s|
    ensures x in Without(s, i) <==> x in s && x != s[i]
  {
    var t := Without(s, i);
    if x in t {
      var j :| 0 <= j < |t| && t[j] == x;
      assert x == s[if j < i then j else j + 1];
    }
    if x in s && x != s[i] {
      var j :| 0 <= j < |s| && s[j] == x;
      assert t[if j < i then j else j - 1] == x;
    }
  }

  lemma WithMembers(s: seq<int>, i: nat, a: int, x: int)
    requires i <= |s|
    ensures x in With(s, i, a) <==> x in s || x == a
  {
    var t := With(s, i, a);
    if x in s {
      var j :| 0 <= j < |s| && s[j] == x;
      assert t[if j < i then j else j + 1] == x;
    }
    assert t[i] == a;
  }

  lemma HoldsUnlink(lists: FreeLists, F: set<Block>, k: nat, i: nat)
    requires Holds(lists, F) && k < ORDERS && i < |lists[k]|
    ensures Holds(lists[k := Without(lists[k], i)], F - {Block(lists[k][i], k + 2)})
    ensures Block(lists[k][i], k + 2) in F
  {
    var L := lists[k := Without(lists[k], i)];
    assert lists[k][i] in lists[k];
    forall x
      ensures x in L[k] <==> x in lists[k] && x != lists[k][i]
    {
      SortedInjective(lists[k], i, x);
    }
  }

  lemma HoldsLink(lists: FreeLists, F: set<Block>, k: nat, i: nat, a: int)
    requires Holds(lists, F) && k < ORDERS
    requires Between(lists[k], i, a)
    ensures Holds(lists[k := With(lists[k], i, a)], F + {Block(a, k + 2)})
  {
    var L := lists[k := With(lists[k], i, a)];
    forall x
      ensures x in L[k] <==> x in lists[k] || x == a
    {
      WithMembers(lists[k], i, a, x);
    }
  }

  /** The heads and the words spell out all the lists. */
  ghost predicate Chains(heads: seq<int>, mem: seq<int>, lists: FreeLists) {
    && |heads| == ORDERS && |lists| == ORDERS
    && (forall k :: 0 <= k < ORDERS ==> Chain(heads[k], mem, lists[k]))
  }

  /** A start address names one block of a set of disjoint blocks. */
  lemma StartUnique(lists: FreeLists, F: set<Block>, j: nat, k: nat, a: int)
    requires Holds(lists, F) && Apart(F) && j < ORDERS && k < ORDERS
    requires a in lists[j] && a in lists[k]
    ensures j == k
  {
    assert Block(a, j + 2) in F && Block(a, k + 2) in F;
  }

  lemma ChainsUnlink(heads: seq<int>, mem: seq<int>, lists: FreeLists, F: set<Block>, k: nat, i: nat)
    requires Chains(heads, mem, lists) && Holds(lists, F) && Apart(F) && k < ORDERS && i < |lists[k]|
    ensures i == 0 ==> Chains(heads[k := At(lists[k], 1)], mem, lists[k := Without(lists[k], 0)])
    ensures i > 0 ==>
              && LinkAt(mem, lists[k], i - 1)
              && Chains(heads, mem[WordOf(lists[k][i - 1]) := At(lists[k], i + 1)], lists[k := Without(lists[k], i)])
  {
    ChainUnlink(heads[k], mem, lists[k], i);
    if i > 0 {
      var a := lists[k][i - 1];
      forall j | 0 <= j < ORDERS && j != k
        ensures Chain(heads[j], mem[WordOf(a) := At(lists[k], i + 1)], lists[j])
      {
        if a in lists[j] { StartUnique(lists, F, j, k, a); }
        ChainElsewhere(heads[j], mem, lists[j], a, At(lists[k], i + 1));
      }
    }
  }

  lemma ChainsLink(heads: seq<int>, mem: seq<int>, lists: FreeLists, F: set<Block>, k: nat, i: nat, a: int)
    requires Chains(heads, mem, lists) && Holds(lists, F) && Apart(F) && k < ORDERS
    requires Addressable(a) && (forall j :: 0 <= j < ORDERS ==> a !in lists[j])
    requires Between(lists[k], i, a)
    ensures i == 0 ==> Chains(heads[k := a], mem[WordOf(a) := At(lists[k], 0)], lists[k := With(lists[k], 0, a)])
    ensures i > 0 ==>
              && LinkAt(mem, lists[k], i - 1)
              && Chains(heads, mem[WordOf(lists[k][i - 1]) := a][WordOf(a) := At(lists[k], i)], lists[k := With(lists[k], i, a)])
  {
    ChainLink(heads[k], mem, lists[k], i, a);
    forall j | 0 <= j < ORDERS && j != k
      ensures Chain(heads[j], mem[WordOf(a) := At(lists[k], 0)], lists[j])
      ensures i > 0 ==>
                && LinkAt(mem, lists[k], i - 1)
                && Chain(heads[j], mem[WordOf(lists[k][i - 1]) := a][WordOf(a) := At(lists[k], i)], lists[j])
    {
      ChainElsewhere(heads[j], mem, lists[j], a, At(lists[k], 0));
      if i > 0 {
        var b := lists[k][i - 1];
        if b in lists[j] { StartUnique(lists, F, j, k, b); }
        ChainElsewhere(heads[j], mem, lists[j], b, a);
        ChainElsewhere(heads[j], mem[WordOf(b) := a], lists[j], a, At(lists[k], i));
      }
    }
  }

  // ---------------------------------------------- one list operation at a time

  /** Where a link is stored: a list head, or the first word of a free block. */
  datatype Slot = Head | Word(addr: int)

  ghost function SlotAt(s: seq<int>, i: nat): Slot
    requires i <= |s|
  {
    if i == 0 then Head else Word(s[i - 1])
  }

  /** `*slot = v`, for a slot of list k. */
  ghost function Stored(heads: seq<int>, mem: seq<int>, slot: Slot, k: nat, v: int): (seq<int>, seq<int>)
    requires |heads| == ORDERS && |mem| == WORDS && k < ORDERS && (slot.Word? ==> Addressable(slot.addr))
  {
    match slot
    case Head => (heads[k := v], mem)
    case Word(a) => (heads, mem[WordOf(a) := v])
  }

  /** Only words of the bytes B differ. */
  ghost predicate ChangedInside(m: seq<int>, n: seq<int>, B: set<int>) {
    |m| == |n| && forall w :: 0 <= w < |m| && m[w] != n[w] ==> LO + 4 * w in B
  }

  ghost predicate Spelled(heads: seq<int>, mem: seq<int>, lists: FreeLists, F: set<Block>) {
    Canonical(F) && Holds(lists, F) && Chains(heads, mem, lists)
  }

  lemma SpelledCanonical(heads: seq<int>, mem: seq<int>, lists: FreeLists, F: set<Block>)
    requires Spelled(heads, mem, lists, F)
    ensures Canonical(F)
  {
  }

  lemma StartFree(lists: FreeLists, F: set<Block>, k: nat, i: nat)
    requires Holds(lists, F) && AllGood(F) && k < ORDERS && i < |lists[k]|
    ensures lists[k][i] in Bytes(F) && Addressable(lists[k][i])
    ensures Block(lists[k][i], k + 2) in F
  {
    var p := Block(lists[k][i], k + 2);
    assert lists[k][i] in lists[k];
    assert p in F && p.Has(p.addr);
    AlignedLower(p.addr, p.bit, 2);
    Aligned2(p.addr);
  }

  lemma HeadFacts(heads: seq<int>, mem: seq<int>, lists: FreeLists, F: set<Block>, k: nat)
    requires Spelled(heads, mem, lists, F) && k < ORDERS
    ensures heads[k] == At(lists[k], 0)
    ensures heads[k] == EMPTY <==> lists[k] == []
    ensures lists[k] != [] ==> Block(lists[k][0], k + 2) in F
  {
    if lists[k] != [] { StartFree(lists, F, k, 0); }
  }

  lemma NotListed(lists: FreeLists, F: set<Block>, p: Block)
    requires Holds(lists, F) && Clear(F, p)
    ensures forall k :: 0 <= k < ORDERS ==> p.addr !in lists[k]
  {
    assert forall k :: 0 <= k < ORDERS && p.addr in lists[k] ==> Disjoint(Block(p.addr, k + 2), p);
  }

  /** `*prev = *entry`. */
  lemma Unlinked(heads: seq<int>, mem: seq<int>, lists: FreeLists, F: set<Block>, k: nat, i: nat)
    requires Spelled(heads, mem, lists, F) && k < ORDERS && i < |lists[k]|
    ensures Addressable(lists[k][i]) && (i > 0 ==> Addressable(lists[k][i - 1]))
    ensures mem[WordOf(lists[k][i])] == At(lists[k], i + 1) && Block(lists[k][i], k + 2) in F
    ensures var (h, m) := Stored(heads, mem, SlotAt(lists[k], i), k, At(lists[k], i + 1));
            var F' := F - {Block(lists[k][i], k + 2)};
            Spelled(h, m, lists[k := Without(lists[k], i)], F') && ChangedInside(mem, m, Bytes(F'))
  {
    var s := lists[k];
    StartFree(lists, F, k, i);
    assert LinkAt(mem, s, i);
    HoldsUnlink(lists, F, k, i);
    ChainsUnlink(heads, mem, lists, F, k, i);
    var F' := F - {Block(s[i], k + 2)};
    if i > 0 { StartFree(lists[k := Without(s, i)], F', k, i - 1); }
    StoreInside(heads, mem, SlotAt(s, i), k, At(s, i + 1), Bytes(F'));
  }

  lemma WordAddress(a: int)
    requires Addressable(a)
    ensures 0 <= WordOf(a) < WORDS && LO + 4 * WordOf(a) == a
  {
  }

  /** Writing a word that is not free disturbs no list. */
  lemma SpelledElsewhere(heads: seq<int>, mem: seq<int>, lists: FreeLists, F: set<Block>, a: int, v: int)
    requires Spelled(heads, mem, lists, F) && Addressable(a) && a !in Bytes(F)
    ensures 0 <= WordOf(a) < |mem| && Spelled(heads, mem[WordOf(a) := v], lists, F)
  {
    WordAddress(a);
    assert Chain(heads[0], mem, lists[0]);
    forall k | 0 <= k < ORDERS
      ensures Chain(heads[k], mem[WordOf(a) := v], lists[k])
    {
      if a in lists[k] {
        var i :| 0 <= i < |lists[k]| && lists[k][i] == a;
        StartFree(lists, F, k, i);
      }
      ChainElsewhere(heads[k], mem, lists[k], a, v);
    }
  }

  lemma StoreInside(heads: seq<int>, mem: seq<int>, slot: Slot, k: nat, v: int, B: set<int>)
    requires |heads| == ORDERS && |mem| == WORDS && k < ORDERS
    requires slot.Word? ==> Addressable(slot.addr) && slot.addr in B
    ensures ChangedInside(mem, Stored(heads, mem, slot, k, v).1, B)
  {
    if slot.Word? { WordAddress(slot.addr); }
  }

  /** `*prev = a; *a = entry`. */
  lemma LinkedIn(heads: seq<int>, mem: seq<int>, lists: FreeLists, F: set<Block>, k: nat, i: nat, a: int)
    requires Spelled(heads, mem, lists, F) && k < ORDERS && Between(lists[k], i, a)
    requires Block(a, k + 2).Good() && Clear(F, Block(a, k + 2)) && Canonical(F + {Block(a, k + 2)})
    ensures Addressable(a) && (i > 0 ==> Addressable(lists[k][i - 1]))
    ensures var (h, m) := Stored(heads, mem, SlotAt(lists[k], i), k, a);
            var m2 := m[WordOf(a) := At(lists[k], i)];
            var F' := F + {Block(a, k + 2)};
            Spelled(h, m2, lists[k := With(lists[k], i, a)], F') && ChangedInside(mem, m2, Bytes(F'))
  {
    var s := lists[k];
    var L, F' := lists[k := With(s, i, a)], F + {Block(a, k + 2)};
    AlignedLower(a, k + 2, 2);
    Aligned2(a);
    NotListed(lists, F, Block(a, k + 2));
    HoldsLink(lists, F, k, i, a);
    ChainsLink(heads, mem, lists, F, k, i, a);
    StartFree(L, F', k, i);
    if i > 0 { StartFree(L, F', k, i - 1); }
    var (h, m) := Stored(heads, mem, SlotAt(s, i), k, a);
    StoreInside(heads, mem, SlotAt(s, i), k, a, Bytes(F'));
    StoreInside(h, m, Word(a), k, At(s, i), Bytes(F'));
    ChangedTwice(mem, m, m[WordOf(a) := At(s, i)], Bytes(F'), Bytes(F'));
  }

  lemma ChangedNothing(m: seq<int>, B: set<int>)
    ensures ChangedInside(m, m, B)
  {
  }

  lemma ChangedTwice(l: seq<int>, m: seq<int>, n: seq<int>, B: set<int>, C: set<int>)
    requires ChangedInside(l, m, B) && ChangedInside(m, n, C) && B <= C
    ensures ChangedInside(l, n, C)
  {
  }

  // -------------------------------------------------- the scan for the buddy

  /** The entries before position i lie below p and none is its buddy. */
  ghost predicate Scanned(s: seq<int>, i: nat, p: Block) {
    i <= |s| && forall j :: 0 <= j < i ==> s[j] < p.addr && Block(s[j], p.bit) != Buddy(p)
  }

  lemma ScanNext(lists: FreeLists, F: set<Block>, i: nat, p: Block)
    requires Holds(lists, F) && AllGood(F) && p.Good() && p.bit <= 29 && Clear(F, p)
    requires Scanned(lists[p.bit - 2], i, p)
    ensures i < |lists[p.bit - 2]| <==> At(lists[p.bit - 2], i) != EMPTY
    ensures i < |lists[p.bit - 2]| ==>
              var e := lists[p.bit - 2][i];
              && Addressable(e) && Block(e, p.bit) in F && e != p.addr
              && (Block(e, p.bit) == Buddy(p) <==> e == if BitSet(p.addr, p.bit) then p.addr - p.Size() else p.addr + p.Size())
              && (e < p.addr && Block(e, p.bit) != Buddy(p) ==> Scanned(lists[p.bit - 2], i + 1, p))
  {
    hide BitSet, Aligned, Pow2;
    if i < |lists[p.bit - 2]| {
      StartFree(lists, F, p.bit - 2, i);
      assert Disjoint(Block(lists[p.bit - 2][i], p.bit), p);
    }
  }

  /** The scan stops at an entry above p that is not the buddy: the buddy is not
      listed at all. */
  lemma ScanStops(lists: FreeLists, F: set<Block>, i: nat, p: Block)
    requires Holds(lists, F) && AllGood(F) && p.Good() && p.bit <= 29
    requires Scanned(lists[p.bit - 2], i, p)
    requires i < |lists[p.bit - 2]| ==>
               lists[p.bit - 2][i] > p.addr && !(!BitSet(p.addr, p.bit) && p.addr + p.Size() == lists[p.bit - 2][i])
    ensures Buddy(p) !in F && Between(lists[p.bit - 2], i, p.addr)
  {
    hide Aligned, Pow2;
    var s := lists[p.bit - 2];
    if Buddy(p) in F {
      var j :| 0 <= j < |s| && s[j] == Buddy(p).addr;
      StartFree(lists, F, p.bit - 2, i);
      AlignedGap(p.addr, s[i], p.bit);
    }
  }

  lemma {:induction false} SortedUnique(s: seq<int>, t: seq<int>)
    requires Sorted(s) && Sorted(t) && (forall x :: x in s <==> x in t)
    ensures s == t
    decreases |s|
  {
    assert |s| > 0 ==> s[0] in s && s[0] in t;
    assert |t| > 0 ==> t[0] in t && t[0] in s;
    if s == [] || t == [] {
    } else {
      forall x
        ensures x in s[1..] <==> x in t[1..]
      {
        SortedInjective(s, 0, x);
        SortedInjective(t, 0, x);
        assert Without(s, 0) == s[1..] && Without(t, 0) == t[1..];
      }
      SortedUnique(s[1..], t[1..]);
    }
  }

  /** The lists are a canonical form: the free bytes fix every list, its order,
      and the counter. */
  lemma ListsDetermined(s: FreeLists, F: set<Block>, t: FreeLists, G: set<Block>)
    requires Holds(s, F) && Canonical(F) && Holds(t, G) && Canonical(G)
    ensures s == t <==> Bytes(F) == Bytes(G)
    ensures s == t ==> F == G && Total(F) == Total(G)
  {
    CanonicalUnique(F, G);
    if Bytes(F) == Bytes(G) {
      forall k | 0 <= k < ORDERS
        ensures s[k] == t[k]
      {
        SortedUnique(s[k], t[k]);
      }
    }
    if s == t {
      assert F == G;
    }
  }
}
