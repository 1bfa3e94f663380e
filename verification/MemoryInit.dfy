// The two freeing passes of init_memory (kernel/memory/memory.c:154-213) over the
// BIOS memory map.
module MemoryInit {
  import opened Bits
  import opened Blocks
  import opened Ranges
  import opened FreeLists
  import opened Memory

  const KERNEL_END: int := 0x10_0000 + 40960
  const LOADER_MAPPED: int := 0x100_0000
  const MAX_MAPPING: int := 0x3000_0000
  const PAGE_OFFSET: int := LO

  /** One entry of the map; kind 1 is memory available to the kernel. */
  datatype ARDSItem = ARDSItem(base: nat, limit: nat, kind: nat)

  ghost predicate Available(m: ARDSItem, x: int) {
    m.kind == 1 && m.base <= x - PAGE_OFFSET < m.base + m.limit
  }

  /** Available ranges are whole words, do not overlap, and none of them wraps in the
      window that ends at hi. */
  ghost predicate ProperMap(map_: seq<ARDSItem>, hi: int) {
    && (forall i :: 0 <= i < |map_| && map_[i].kind == 1 ==> WholeItem(map_[i]) && EndFits(map_[i], hi))
    && (forall i, j, x :: 0 <= i < j < |map_| && Available(map_[i], x) ==> !Available(map_[j], x))
  }

  predicate WholeItem(m: ARDSItem) { m.base % 4 == 0 && m.limit % 4 == 0 }

  /** An entry that begins below hi ends below 4 GB, or its end taken as a 32-bit word is
      still hi or more. */
  predicate EndFits(m: ARDSItem, hi: int) {
    m.base >= hi || m.base + m.limit < WORD || Wrap(m.base + m.limit) >= hi
  }

  lemma ProperAt(map_: seq<ARDSItem>, i: nat, hi: int)
    requires ProperMap(map_, hi) && i < |map_|
    ensures map_[i].kind == 1 ==> WholeItem(map_[i]) && EndFits(map_[i], hi)
  {
  }

  lemma ProperBelow(map_: seq<ARDSItem>, lo: int, hi: int)
    requires ProperMap(map_, hi) && lo <= hi
    ensures ProperMap(map_, lo)
  {
  }

  /** An available range that begins below the end of the window and ends exactly at 4 GB
      does not fit, as little as all 4 GB in one entry. */
  lemma EndAtWord(m: ARDSItem, hi: int)
    requires 0 < hi && m.base < hi && m.base + m.limit == WORD
    ensures !EndFits(m, hi) && !EndFits(ARDSItem(0, WORD, 1), hi)
  {
  }

  ghost predicate AvailableAmong(map_: seq<ARDSItem>, n: nat, x: int)
    requires n <= |map_|
  {
    exists i :: 0 <= i < n && Available(map_[i], x)
  }

  /** The available bytes of the first n entries that lie in [lo, hi). */
  ghost function AvailableIn(map_: seq<ARDSItem>, n: nat, lo: int, hi: int): set<int>
    requires n <= |map_|
  {
    set x | x in Range(PAGE_OFFSET + lo, hi - lo) && AvailableAmong(map_, n, x)
  }

  /** What one entry contributes to a window. */
  ghost function Window(m: ARDSItem, lo: int, hi: int): set<int> {
    set x | x in Range(PAGE_OFFSET + lo, hi - lo) && Available(m, x)
  }

  lemma AvailableNext(map_: seq<ARDSItem>, n: nat, lo: int, hi: int)
    requires n < |map_|
    ensures AvailableIn(map_, n + 1, lo, hi) == AvailableIn(map_, n, lo, hi) + Window(map_[n], lo, hi)
    ensures forall end :: ProperMap(map_, end) ==> AvailableIn(map_, n, lo, hi) !! Window(map_[n], lo, hi)
  {
    forall x
      ensures AvailableAmong(map_, n + 1, x) <==> AvailableAmong(map_, n, x) || Available(map_[n], x)
    {
    }
  }

  lemma AvailableNone(map_: seq<ARDSItem>, lo: int, hi: int)
    ensures AvailableIn(map_, 0, lo, hi) == {}
  {
  }

  lemma AvailableMore(map_: seq<ARDSItem>, n: nat, lo: int, hi: int)
    requires n <= |map_|
    ensures AvailableIn(map_, n, lo, hi) <= AvailableIn(map_, |map_|, lo, hi)
  {
  }

  /** The windows of the two passes do not overlap and make up the whole. */
  lemma WindowsJoin(map_: seq<ARDSItem>, n: nat)
    requires n <= |map_|
    ensures AvailableIn(map_, n, KERNEL_END, LOADER_MAPPED) !! AvailableIn(map_, n, LOADER_MAPPED, MAX_MAPPING)
    ensures AvailableIn(map_, n, KERNEL_END, LOADER_MAPPED) + AvailableIn(map_, n, LOADER_MAPPED, MAX_MAPPING)
            == AvailableIn(map_, n, KERNEL_END, MAX_MAPPING)
  {
  }

  ghost predicate Clipped(m: ARDSItem, lo: int, hi: int, take: bool, base: int, limit: int) {
    && (!take ==> Window(m, lo, hi) == {})
    && (take ==> Range(PAGE_OFFSET + base, limit) == Window(m, lo, hi))
  }

  /** A range of whole words that FreeNoCheck can cut up. */
  ghost predicate Whole(m: ARDSItem, take: bool, base: int, limit: int) {
    take && WholeItem(m) ==> Cuttable(PAGE_OFFSET + base, limit, 2)
  }

  lemma WindowHas(m: ARDSItem, lo: int, hi: int, x: int)
    ensures x in Window(m, lo, hi) <==> PAGE_OFFSET + lo <= x < PAGE_OFFSET + hi && Available(m, x)
  {
    assert x in Window(m, lo, hi) <==> x in Range(PAGE_OFFSET + lo, hi - lo) && Available(m, x);
  }

  lemma ClippedAligned(m: ARDSItem, lo: int, hi: int, base: int, limit: int)
    requires WholeItem(m) && lo % 4 == 0 && hi % 4 == 0
    requires base == (if m.base < lo then lo else m.base)
    requires base + limit == (if m.base + m.limit > hi then hi else m.base + m.limit)
    ensures Aligned(PAGE_OFFSET + base, 2) && Aligned(limit, 2)
  {
    hide Aligned;
    var p, q := m.base / 4, m.limit / 4;
    assert m.base == 4 * p && m.limit == 4 * q && lo == 4 * (lo / 4) && hi == 4 * (hi / 4);
    var b := if m.base < lo then lo / 4 else p;
    var e := if m.base + m.limit > hi then hi / 4 else p + q;
    assert base == 4 * b && limit == 4 * (e - b);
    FourTimes(PAGE_OFFSET / 4 + b);
    FourTimes(e - b);
  }

  lemma FourTimes(k: int)
    ensures Aligned(4 * k, 2)
  {
    Aligned2(4 * k);
  }

  lemma WindowClipped(m: ARDSItem, lo: int, hi: int, base: int, limit: int)
    requires m.kind == 1 && lo % 4 == 0 && hi % 4 == 0 && 0 <= lo && hi <= MAX_MAPPING
    requires base == (if m.base < lo then lo else m.base) && 0 <= limit
    requires base + limit == (if m.base + m.limit > hi then hi else m.base + m.limit)
    ensures Clipped(m, lo, hi, true, base, limit) && Whole(m, true, base, limit)
  {
    hide Aligned;
    if WholeItem(m) { ClippedAligned(m, lo, hi, base, limit); }
    forall x
      ensures x in Range(PAGE_OFFSET + base, limit) <==> x in Window(m, lo, hi)
    {
      WindowHas(m, lo, hi, x);
    }
  }

  lemma WindowEmpty(m: ARDSItem, lo: int, hi: int)
    requires m.kind != 1 || m.base >= hi || m.base + m.limit <= lo
    ensures Clipped(m, lo, hi, false, 0, 0)
  {
    forall x
      ensures x !in Window(m, lo, hi)
    {
    }
  }

  /** A wrapped end gives the wrong bytes. */
  lemma WindowWrong(m: ARDSItem, lo: int, hi: int, take: bool, base: int, limit: int)
    requires m.kind == 1 && lo < hi && m.base < hi <= m.base + m.limit && (take ==> base + limit != hi && base < hi && 0 <= limit)
    ensures !Clipped(m, lo, hi, take, base, limit)
  {
    WindowHas(m, lo, hi, PAGE_OFFSET + hi - 1);
    if take && base + limit > hi {
      WindowHas(m, lo, hi, PAGE_OFFSET + base + limit - 1);
      assert PAGE_OFFSET + base + limit - 1 in Range(PAGE_OFFSET + base, limit);
    } else if take {
      assert PAGE_OFFSET + hi - 1 !in Range(PAGE_OFFSET + base, limit);
    }
  }

  /** What the clipping leaves of an entry that begins below the window's end. */
  lemma ClipEnds(m: ARDSItem, lo: int, hi: int, take: bool, base: int, limit: int)
    requires m.kind == 1 && m.base < hi && lo % 4 == 0 && hi % 4 == 0 && 0 <= lo < hi <= MAX_MAPPING
    requires !take ==> m.base < lo && Wrap(m.base + m.limit) <= lo
    requires take ==> base == (if m.base < lo then lo else m.base) && 0 <= limit < WORD && Limited(m, hi, base, limit)
    ensures Clipped(m, lo, hi, take, base, limit) <==> EndFits(m, hi)
    ensures EndFits(m, hi) ==> Whole(m, take, base, limit)
  {
    hide Clipped;
    if m.base + m.limit >= WORD && Wrap(m.base + m.limit) < hi {
      WindowWrong(m, lo, hi, take, base, limit);
    } else if take {
      WindowClipped(m, lo, hi, base, limit);
    } else {
      NotTaken(m, lo, hi, base, limit);
    }
  }

  lemma Beyond(m: ARDSItem, lo: int, hi: int)
    requires m.kind != 1 || m.base >= hi
    ensures Clipped(m, lo, hi, false, 0, 0) && (m.kind == 1 ==> EndFits(m, hi))
  {
    WindowEmpty(m, lo, hi);
  }

  lemma NotTaken(m: ARDSItem, lo: int, hi: int, base: int, limit: int)
    requires m.base + m.limit <= lo
    ensures Clipped(m, lo, hi, false, base, limit)
  {
    WindowEmpty(m, lo, hi);
  }

  /** The end of the range taken: the wrapped end of the entry, or that of the window. */
  ghost predicate Limited(m: ARDSItem, hi: int, base: int, limit: int) {
    var e := Wrap(m.base + m.limit);
    if e > hi then base + limit == hi
    else base + limit <= m.base + m.limit && (base + limit == e || base + limit == e + WORD)
  }

  /** Sums of words. */
  lemma WrapSum(b: nat, l: nat, hi: int)
    requires b < hi <= WORD
    ensures Wrap(b) == b && Wrap(Wrap(l) + b) == Wrap(b + Wrap(l)) == Wrap(b + l) <= b + l
    ensures b + Wrap(l) <= b + l && (b + Wrap(l) == Wrap(b + l) || b + Wrap(l) == Wrap(b + l) + WORD)
    ensures forall x: int :: 0 <= x < WORD ==> Wrap(x) == x
  {
    var q, r := l / WORD, l % WORD;
    assert b + l == WORD * q + (b + r);
    WrapTimes(q, b + r);
  }

  lemma WrapTimes(q: int, y: int)
    ensures (WORD * q + y) % WORD == y % WORD
  {
  }

  /** The clipping of one entry in the first pass gives the available bytes of the window
      exactly if the entry's end fits. */
  method ClipFirst(ai: ARDSItem) returns (take: bool, base: u32, limit: u32)
    ensures Clipped(ai, KERNEL_END, LOADER_MAPPED, take, base, limit) <==> ai.kind != 1 || EndFits(ai, LOADER_MAPPED)
    ensures ai.kind != 1 || EndFits(ai, LOADER_MAPPED) ==> Whole(ai, take, base, limit)
    ensures take <==> ai.kind == 1 && ai.base < LOADER_MAPPED && (ai.base >= KERNEL_END || Wrap(ai.base + ai.limit) > KERNEL_END)
    ensures take ==> base == (if ai.base < KERNEL_END then KERNEL_END else ai.base)
                     && Wrap(base + limit) == if Wrap(ai.base + ai.limit) > LOADER_MAPPED then LOADER_MAPPED else Wrap(ai.base + ai.limit)
  {
    hide Wrap, Clipped, EndFits;
    take, base, limit := false, 0, 0;
    if ai.kind == 1 && ai.base < LOADER_MAPPED {
      WrapSum(ai.base, ai.limit, LOADER_MAPPED);
      base, limit := Wrap(ai.base), Wrap(ai.limit);
      if base < KERNEL_END {
        limit := Wrap(limit + base);
        if limit <= KERNEL_END {
          ClipEnds(ai, KERNEL_END, LOADER_MAPPED, false, base, limit);
          return;
        }
        base := KERNEL_END;
        limit := limit - base;
      }
      if Wrap(base + limit) > LOADER_MAPPED {
        limit := LOADER_MAPPED - base;
      }
      take := true;
      ClipEnds(ai, KERNEL_END, LOADER_MAPPED, true, base, limit);
    } else {
      Beyond(ai, KERNEL_END, LOADER_MAPPED);
    }
  }

  /** The clipping of one entry in the second pass: the same for its window. */
  method ClipSecond(ai: ARDSItem) returns (take: bool, base: u32, limit: u32)
    ensures Clipped(ai, LOADER_MAPPED, MAX_MAPPING, take, base, limit) <==> ai.kind != 1 || EndFits(ai, MAX_MAPPING)
    ensures ai.kind != 1 || EndFits(ai, MAX_MAPPING) ==> Whole(ai, take, base, limit)
    ensures take <==> ai.kind == 1 && ai.base < MAX_MAPPING && (ai.base >= LOADER_MAPPED || Wrap(ai.base + ai.limit) > LOADER_MAPPED)
    ensures take ==> base == (if ai.base < LOADER_MAPPED then LOADER_MAPPED else ai.base)
                     && Wrap(base + limit) == if Wrap(ai.base + ai.limit) > MAX_MAPPING then MAX_MAPPING else Wrap(ai.base + ai.limit)
  {
    hide Wrap, Clipped, EndFits;
    take, base, limit := false, 0, 0;
    if ai.kind == 1 && ai.base < MAX_MAPPING {
      WrapSum(ai.base, ai.limit, MAX_MAPPING);
      base, limit := Wrap(ai.base), Wrap(ai.limit);
      if base < LOADER_MAPPED {
        limit := Wrap(limit + base);
        if limit <= LOADER_MAPPED {
          ClipEnds(ai, LOADER_MAPPED, MAX_MAPPING, false, base, limit);
          return;
        }
        base := LOADER_MAPPED;
        limit := limit - base;
      }
      if Wrap(base + limit) > MAX_MAPPING {
        limit := MAX_MAPPING - base;
      }
      take := true;
      ClipEnds(ai, LOADER_MAPPED, MAX_MAPPING, true, base, limit);
    } else {
      Beyond(ai, LOADER_MAPPED, MAX_MAPPING);
    }
  }

  /** Entries that the 32-bit end misplaces: all of the 4 GB in one entry is passed over,
      although it has available bytes, and one from 2 MB to 4 GB keeps its whole
      length. */
  method WholeMemory() returns (take: bool, base: u32, limit: u32, take2: bool, base2: u32, limit2: u32)
    ensures !take && Available(ARDSItem(0, WORD, 1), PAGE_OFFSET + KERNEL_END)
    ensures take2 && base2 == 0x20_0000 && limit2 == WORD - 0x20_0000
    ensures !Clipped(ARDSItem(0, WORD, 1), KERNEL_END, LOADER_MAPPED, take, base, limit)
    ensures !Clipped(ARDSItem(0x20_0000, WORD - 0x20_0000, 1), KERNEL_END, LOADER_MAPPED, take2, base2, limit2)
  {
    hide Clipped;
    take, base, limit := ClipFirst(ARDSItem(0, WORD, 1));
    take2, base2, limit2 := ClipFirst(ARDSItem(0x20_0000, WORD - 0x20_0000, 1));
  }

  /** The end of the last entry, of those before n, that is memory, ACPI tables or
      non-volatile storage: the code's measure of memory. */
  function LastEnd(map_: seq<ARDSItem>, n: nat): nat
    requires n <= |map_|
  {
    if n == 0 then 0
    else if map_[n - 1].kind in {1, 3, 4} then (map_[n - 1].base + map_[n - 1].limit) % WORD64
    else LastEnd(map_, n - 1)
  }

  /** Entry i is the last of those that count. */
  predicate LastCounted(map_: seq<ARDSItem>, i: nat) {
    && i < |map_| && map_[i].kind in {1, 3, 4}
    && forall j :: i < j < |map_| ==> map_[j].kind !in {1, 3, 4}
  }

  lemma {:induction false} LastEndIs(map_: seq<ARDSItem>, i: nat, n: nat)
    requires i < n <= |map_| && map_[i].kind in {1, 3, 4} && forall j :: i < j < n ==> map_[j].kind !in {1, 3, 4}
    ensures LastEnd(map_, n) == (map_[i].base + map_[i].limit) % WORD64
  {
    if i < n - 1 { LastEndIs(map_, i, n - 1); }
  }

  lemma {:induction false} LastEndNone(map_: seq<ARDSItem>, n: nat)
    requires n <= |map_| && (forall i: nat :: !LastCounted(map_, i))
    requires forall j :: n <= j < |map_| ==> map_[j].kind !in {1, 3, 4}
    ensures LastEnd(map_, n) == 0
  {
    if n > 0 {
      assert !LastCounted(map_, n - 1);
      LastEndNone(map_, n - 1);
    }
  }

  lemma LastEndFound(map_: seq<ARDSItem>)
    ensures forall i: nat :: LastCounted(map_, i) ==>
              LastEnd(map_, |map_|) == (map_[i].base + map_[i].limit) % 0x1_0000_0000_0000_0000
    ensures (forall i: nat :: !LastCounted(map_, i)) ==> LastEnd(map_, |map_|) == 0
  {
    forall i: nat | LastCounted(map_, i)
      ensures LastEnd(map_, |map_|) == (map_[i].base + map_[i].limit) % WORD64
    {
      LastEndIs(map_, i, |map_|);
    }
    if forall i: nat :: !LastCounted(map_, i) { LastEndNone(map_, |map_|); }
  }

  /** The first pass frees each available byte between the end of the kernel
      and the memory the loader mapped, once, and nothing else. */
  method FirstPass(a: Allocator, map_: seq<ARDSItem>) returns (max: nat)
    requires a.Valid() && ProperMap(map_, LOADER_MAPPED)
    requires AvailableIn(map_, |map_|, KERNEL_END, LOADER_MAPPED) !! Bytes(a.free)
    modifies a, a.mem, a.heads
    ensures a.Valid() && max == LastEnd(map_, |map_|)
    ensures forall i: nat :: LastCounted(map_, i) ==> max == (map_[i].base + map_[i].limit) % 0x1_0000_0000_0000_0000
    ensures (forall i: nat :: !LastCounted(map_, i)) ==> max == 0
    ensures a.Books() == old(a.Books()).Returned(AvailableIn(map_, |map_|, KERNEL_END, LOADER_MAPPED))
    ensures ChangedInside(old(a.mem[..]), a.mem[..], Bytes(a.free))
  {
    hide Spelled, Window, AvailableIn, Cuttable, Total, Bytes, Aligned, ChangedInside, ProperMap;
    ghost var m, l, done := a.mem[..], a.Books(), {};
    ChangedNothing(m, l.free);
    ReturnedNothing(l);
    AvailableNone(map_, KERNEL_END, LOADER_MAPPED);
    LastEndFound(map_);
    max := 0;
    for i := 0 to |map_|
      invariant a.Valid() && a.Books() == l.Returned(done) && max == LastEnd(map_, i)
      invariant ChangedInside(m, a.mem[..], Bytes(a.free))
      invariant done == AvailableIn(map_, i, KERNEL_END, LOADER_MAPPED)
    {
      ghost var w := Window(map_[i], KERNEL_END, LOADER_MAPPED);
      AvailableNext(map_, i, KERNEL_END, LOADER_MAPPED);
      AvailableMore(map_, i + 1, KERNEL_END, LOADER_MAPPED);
      ReturnedTwice(l, done, w);
      ProperAt(map_, i, LOADER_MAPPED);
      var take, base, limit := ClipFirst(map_[i]);
      if take {
        ghost var m1, B := a.mem[..], Bytes(a.free);
        var _ := a.FreeNoCheck(PAGE_OFFSET + base, limit);
        ChangedTwice(m, m1, a.mem[..], B, Bytes(a.free));
      } else {
        ReturnedNothing(a.Books());
      }
      if map_[i].kind in {1, 3, 4} {
        max := (map_[i].base + map_[i].limit) % WORD64;
      }
      done := done + w;
    }
  }

  /** The second pass frees each available byte between the memory the
      loader mapped and the end of the kernel mapping, once, and nothing else. */
  method SecondPass(a: Allocator, map_: seq<ARDSItem>)
    requires a.Valid() && ProperMap(map_, MAX_MAPPING)
    requires AvailableIn(map_, |map_|, LOADER_MAPPED, MAX_MAPPING) !! Bytes(a.free)
    modifies a, a.mem, a.heads
    ensures a.Valid()
    ensures a.Books() == old(a.Books()).Returned(AvailableIn(map_, |map_|, LOADER_MAPPED, MAX_MAPPING))
    ensures ChangedInside(old(a.mem[..]), a.mem[..], Bytes(a.free))
  {
    hide Spelled, Window, AvailableIn, Cuttable, Total, Bytes, Aligned, ChangedInside, ProperMap;
    ghost var m, l, done := a.mem[..], a.Books(), {};
    ChangedNothing(m, l.free);
    ReturnedNothing(l);
    AvailableNone(map_, LOADER_MAPPED, MAX_MAPPING);
    for i := 0 to |map_|
      invariant a.Valid() && a.Books() == l.Returned(done)
      invariant ChangedInside(m, a.mem[..], Bytes(a.free))
      invariant done == AvailableIn(map_, i, LOADER_MAPPED, MAX_MAPPING)
    {
      ghost var w := Window(map_[i], LOADER_MAPPED, MAX_MAPPING);
      AvailableNext(map_, i, LOADER_MAPPED, MAX_MAPPING);
      AvailableMore(map_, i + 1, LOADER_MAPPED, MAX_MAPPING);
      ReturnedTwice(l, done, w);
      ProperAt(map_, i, MAX_MAPPING);
      var take, base, limit := ClipSecond(map_[i]);
      if take {
        ghost var m1, B := a.mem[..], Bytes(a.free);
        var _ := a.FreeNoCheck(PAGE_OFFSET + base, limit);
        ChangedTwice(m, m1, a.mem[..], B, Bytes(a.free));
      } else {
        ReturnedNothing(a.Books());
      }
      done := done + w;
    }
  }
}
