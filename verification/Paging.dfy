// The kernel's page tables (kernel/memory/paging.c:49-88), built in memory taken
// from the buddy allocator.
module Paging {
  import opened Options
  import opened Bits
  import opened Blocks
  import opened Ranges
  import opened FreeLists
  import opened Memory
  import opened MemoryInit

  const PAGE_SIZE: int := 0x1000
  /** Entries of one table, and bytes mapped by one table. */
  const ENTRIES: int := 1024
  const REACH: int := 0x40_0000
  /** 0b11111: present, writable, user, write-through, cache-disabled. */
  const PRESENT: int := 31
  /** The page number of the per-CPU page, KERNEL_STRUCTURE >> 12. */
  const CPU_PAGE: int := 7

  /** Word i of the table at addr. */
  function Entry(mem: seq<int>, addr: int, i: int): int {
    var w := WordOf(addr) + i;
    if 0 <= w < |mem| then mem[w] else 0
  }

  /** The two-level walk: the physical address v maps to, if any. Entry bit 0 is
      the present bit; physical p is the kernel address PAGE_OFFSET + p. */
  function Walk(mem: seq<int>, pde: int, v: u32): Option<int> {
    var e := Entry(mem, pde, v / REACH);
    if e % 2 == 0 then None
    else
      var f := Entry(mem, PAGE_OFFSET + (e - e % PAGE_SIZE), v % REACH / PAGE_SIZE);
      if f % 2 == 0 then None else Some(f - f % PAGE_SIZE + v % PAGE_SIZE)
  }

  /** What the flat table, the kernel's first table and the directory hold. */
  ghost predicate FlatFilled(mem: seq<int>, flat: int, pages: nat, n: nat) {
    forall i :: 0 <= i < n ==> Entry(mem, flat, i) == if i < pages then i * PAGE_SIZE + PRESENT else i * PAGE_SIZE
  }

  ghost predicate FirstFilled(mem: seq<int>, first: int, cpu: int, n: nat) {
    forall i :: 0 <= i < n ==>
      Entry(mem, first, i) == if i == CPU_PAGE then cpu - PAGE_OFFSET + PRESENT else i * PAGE_SIZE + PRESENT
  }

  ghost function DirectoryEntry(flat: int, first: int, tables: nat, i: int): int {
    if i < 768 then 0
    else if i == 768 then first - PAGE_OFFSET + PRESENT
    else if i < 768 + tables then flat - PAGE_OFFSET + (i - 768) * PAGE_SIZE + PRESENT
    else 0
  }

  ghost predicate DirectoryFilled(mem: seq<int>, pde: int, flat: int, first: int, tables: nat, n: nat) {
    forall i :: 0 <= i < n ==> Entry(mem, pde, i) == DirectoryEntry(flat, first, tables, i)
  }

  ghost predicate PageAt(a: int) { LO <= a && a + PAGE_SIZE <= HI && a % PAGE_SIZE == 0 }

  /** The flat entries: pages rounded up to whole tables, and the tables the
      directory points to. */
  function Rounded(pages: nat): nat { (pages + 1023) / 1024 * 1024 }

  function Tables(pages: nat): nat {
    if Rounded(pages) / 1024 > 192 then 192 else Rounded(pages) / 1024
  }

  ghost predicate Built(mem: seq<int>, pde: int, flat: int, first: int, cpu: int, pages: nat) {
    && |mem| == WORDS && PageAt(pde) && PageAt(flat) && PageAt(first) && PageAt(cpu)
    && 1024 < pages && flat + Rounded(pages) * 4 <= HI
    && FlatFilled(mem, flat, pages, Rounded(pages)) && FirstFilled(mem, first, cpu, ENTRIES)
    && DirectoryFilled(mem, pde, flat, first, Tables(pages), ENTRIES)
  }

  lemma QuotientAt(q: int, r: int)
    requires 0 <= r < PAGE_SIZE
    ensures (PAGE_SIZE * q + r) % PAGE_SIZE == r
  {
  }

  lemma Parity(k: int, r: int)
    ensures (2 * k + r) % 2 == r % 2
  {
  }

  lemma EntryParts(frame: int, flags: int)
    requires frame % PAGE_SIZE == 0 && 0 <= flags < PAGE_SIZE
    ensures (frame + flags) % 2 == flags % 2 && (frame + flags) - (frame + flags) % PAGE_SIZE == frame
  {
    var q := frame / PAGE_SIZE;
    QuotientAt(q, flags);
    Parity(2048 * q, flags);
  }

  /** Entry j of the t-th table of the flat array is flat entry 1024 * t + j. */
  lemma FlatEntry(mem: seq<int>, flat: int, t: nat, j: nat)
    requires flat % 4 == 0
    ensures Entry(mem, flat + t * PAGE_SIZE, j) == Entry(mem, flat, 1024 * t + j)
  {
  }

  /** The walk through a present directory entry. */
  lemma WalkThrough(mem: seq<int>, pde: int, v: u32, table: int)
    requires table % PAGE_SIZE == 0 && Entry(mem, pde, v / REACH) == table - PAGE_OFFSET + PRESENT
    ensures var f := Entry(mem, table, v % REACH / PAGE_SIZE);
            Walk(mem, pde, v) == if f % 2 == 0 then None else Some(f - f % PAGE_SIZE + v % PAGE_SIZE)
  {
    hide Entry;
    LessOffset(table);
    EntryParts(table - PAGE_OFFSET, PRESENT);
  }

  lemma LessOffset(table: int)
    requires table % PAGE_SIZE == 0
    ensures (table - PAGE_OFFSET) % PAGE_SIZE == 0
  {
  }

  lemma WalkFirst(mem: seq<int>, pde: int, flat: int, first: int, cpu: int, pages: nat, v: u32)
    requires Built(mem, pde, flat, first, cpu, pages) && v / REACH == 768
    ensures var j := v % REACH / PAGE_SIZE;
            Walk(mem, pde, v) == Some((if j == CPU_PAGE then cpu - PAGE_OFFSET else j * PAGE_SIZE) + v % PAGE_SIZE)
  {
    hide Walk, Entry, Built;
    var j := v % REACH / PAGE_SIZE;
    FirstEntries(mem, pde, flat, first, cpu, pages, j);
    WalkThrough(mem, pde, v, first);
    EntryParts(if j == CPU_PAGE then cpu - PAGE_OFFSET else j * PAGE_SIZE, PRESENT);
  }

  lemma FirstEntries(mem: seq<int>, pde: int, flat: int, first: int, cpu: int, pages: nat, j: int)
    requires Built(mem, pde, flat, first, cpu, pages) && 0 <= j < ENTRIES
    ensures Entry(mem, pde, 768) == first - PAGE_OFFSET + PRESENT && first % PAGE_SIZE == 0 && cpu % PAGE_SIZE == 0
    ensures Entry(mem, first, j) == if j == CPU_PAGE then cpu - PAGE_OFFSET + PRESENT else j * PAGE_SIZE + PRESENT
  {
    hide Entry;
    assert Entry(mem, pde, 768) == DirectoryEntry(flat, first, Tables(pages), 768);
  }

  lemma WalkNone(mem: seq<int>, pde: int, v: u32)
    ensures Entry(mem, pde, v / REACH) == 0 ==> Walk(mem, pde, v) == None
  {
  }

  lemma PageTimes(n: int)
    ensures n * PAGE_SIZE % PAGE_SIZE == 0
  {
    QuotientAt(n, 0);
  }

  lemma TableInside(flat: int, pages: nat, t: int, j: int)
    requires PageAt(flat) && 0 <= t < Tables(pages) && 0 <= j < ENTRIES
    ensures 1024 * t + j < Rounded(pages) && (flat + t * PAGE_SIZE) % PAGE_SIZE == 0 && flat % 4 == 0
  {
    var q := flat / PAGE_SIZE;
    assert flat == PAGE_SIZE * q;
    QuotientAt(q + t, 0);
    FourDivides(1024 * q);
  }

  lemma WalkFlat(mem: seq<int>, pde: int, flat: int, first: int, cpu: int, pages: nat, v: u32)
    requires Built(mem, pde, flat, first, cpu, pages) && 768 < v / REACH
    ensures var n := 1024 * (v / REACH - 768) + v % REACH / PAGE_SIZE;
            Walk(mem, pde, v) ==
              if v / REACH - 768 < Tables(pages) && n < pages then Some(n * PAGE_SIZE + v % PAGE_SIZE) else None
  {
    hide Walk, Entry, Rounded, Tables, PageAt;
    var t, j := v / REACH - 768, v % REACH / PAGE_SIZE;
    var n := 1024 * t + j;
    WalkNone(mem, pde, v);
    AddressParts(v);
    assert Entry(mem, pde, t + 768) == DirectoryEntry(flat, first, Tables(pages), t + 768);
    if t < Tables(pages) {
      TableInside(flat, pages, t, j);
      WalkThrough(mem, pde, v, flat + t * PAGE_SIZE);
      FlatEntry(mem, flat, t, j);
      assert Entry(mem, flat, n) == if n < pages then n * PAGE_SIZE + PRESENT else n * PAGE_SIZE;
      PageTimes(n);
      EntryParts(n * PAGE_SIZE, if n < pages then PRESENT else 0);
    }
  }

  /** The kernel mapping: from PAGE_OFFSET up, memory appears at its physical
      address plus PAGE_OFFSET, up to the end of memory or 768 MB, except that one
      page is the CPU's own; nothing else is mapped. */
  lemma WalkBuilt(mem: seq<int>, pde: int, flat: int, first: int, cpu: int, pages: nat, v: u32)
    requires Built(mem, pde, flat, first, cpu, pages)
    ensures var off := v - PAGE_OFFSET;
            Walk(mem, pde, v) ==
              if v < PAGE_OFFSET then None
              else if off / PAGE_SIZE == CPU_PAGE then Some(cpu - PAGE_OFFSET + v % PAGE_SIZE)
              else if off / PAGE_SIZE < pages && off < MAX_MAPPING then Some(off)
              else None
  {
    var i, j, r := v / REACH, v % REACH / PAGE_SIZE, v % PAGE_SIZE;
    var n := 1024 * (i - 768) + j;
    AddressParts(v);
    if i < 768 {
      assert Entry(mem, pde, i) == DirectoryEntry(flat, first, Tables(pages), i);
    } else if i == 768 {
      WalkFirst(mem, pde, flat, first, cpu, pages, v);
    } else {
      WalkFlat(mem, pde, flat, first, cpu, pages, v);
    }
  }

  lemma AddressParts(v: u32)
    ensures var i, j, r := v / REACH, v % REACH / PAGE_SIZE, v % PAGE_SIZE;
            var n := 1024 * (i - 768) + j;
            && 0 <= i < ENTRIES && 0 <= j < ENTRIES && v - PAGE_OFFSET == n * PAGE_SIZE + r
            && (v < PAGE_OFFSET <==> i < 768)
            && (v >= PAGE_OFFSET ==> (v - PAGE_OFFSET) / PAGE_SIZE == n)
            && (v - PAGE_OFFSET < MAX_MAPPING <==> i - 768 < 192)
  {
    var i, j, r := v / REACH, v % REACH / PAGE_SIZE, v % PAGE_SIZE;
    assert v == i * REACH + j * PAGE_SIZE + r;
    if i >= 768 { PageOf(1024 * (i - 768) + j, r); }
  }

  lemma PageOf(n: nat, r: nat)
    requires r < PAGE_SIZE
    ensures (n * PAGE_SIZE + r) / PAGE_SIZE == n
  {
  }

  // ------------------------------------------------------------ construction

  /** The i-th word of a table is the word at its address plus 4 * i. */
  lemma WordAt(table: int, i: int)
    requires Slot(table, i)
    ensures Addressable(table + 4 * i) && WordOf(table + 4 * i) == WordOf(table) + i
    ensures 0 <= WordOf(table) + i < WORDS
  {
  }

  ghost predicate Slot(table: int, i: int) {
    table % 4 == 0 && LO <= table && 0 <= i && table + 4 * i < HI
  }

  lemma PageSlots(a: int)
    requires PageAt(a)
    ensures a % 4 == 0 && LO <= a && a + PAGE_SIZE <= HI
    ensures forall i :: 0 <= i < ENTRIES ==> Slot(a, i)
  {
    var q := a / PAGE_SIZE;
    assert a == 4 * (1024 * q);
    FourDivides(1024 * q);
  }

  lemma FourDivides(k: int)
    ensures 4 * k % 4 == 0
  {
  }

  /** Distinct pages have no word in common. */
  lemma PagesApart(a: int, b: int)
    requires PageAt(a) && PageAt(b) && a != b
    ensures a + PAGE_SIZE <= b || b + PAGE_SIZE <= a
  {
  }

  /** Word i of one table became v; every other table word is what it was. */
  ghost predicate Stored(m: seq<int>, n: seq<int>, table: int, i: int, v: int) {
    forall t, j :: Slot(t, j) ==> Entry(n, t, j) == if t + 4 * j == table + 4 * i then v else Entry(m, t, j)
  }

  method Put(a: Allocator, table: int, i: int, v: int)
    requires a.Valid() && Slot(table, i) && table + 4 * i !in Bytes(a.free)
    modifies a.mem
    ensures a.Valid() && a.Books() == old(a.Books()) && Stored(old(a.mem[..]), a.mem[..], table, i, v)
  {
    hide Bytes, Spelled;
    ghost var m := a.mem[..];
    WordAt(table, i);
    a.Poke(table + 4 * i, v);
    forall t, j | Slot(t, j)
      ensures Entry(a.mem[..], t, j) == if t + 4 * j == table + 4 * i then v else Entry(m, t, j)
    {
      WordAt(t, j);
    }
  }

  /** Entries lo to hi - 1 of one table hold base, or base plus a page number's
      address; every other table word is what it was. */
  ghost predicate Filled(m: seq<int>, n: seq<int>, table: int, lo: int, hi: int, base: int, paged: bool) {
    forall t, j :: Slot(t, j) ==>
      Entry(n, t, j) ==
        var i := (t + 4 * j - table) / 4;
        if lo <= i < hi then base + (if paged then i * PAGE_SIZE else 0) else Entry(m, t, j)
  }

  /** The loop shape of init_paging: a pointer moves over one table. */
  method Fill(a: Allocator, table: int, lo: nat, hi: nat, base: int, paged: bool)
    requires a.Valid() && PageAt(table) && lo <= hi && table + 4 * hi <= HI && Range(table, 4 * hi) !! Bytes(a.free)
    modifies a.mem
    ensures a.Valid() && a.Books() == old(a.Books())
    ensures Filled(old(a.mem[..]), a.mem[..], table, lo, hi, base, paged)
  {
    hide Bytes, Spelled, Entry;
    ghost var m := a.mem[..];
    for index := lo to hi
      invariant a.Valid() && a.Books() == old(a.Books()) && Filled(m, a.mem[..], table, lo, index, base, paged)
    {
      assert table + 4 * index in Range(table, 4 * hi);
      ghost var m1 := a.mem[..];
      var v := base + (if paged then index * 0x1000 else 0);
      Put(a, table, index, v);
      FilledMore(m, m1, a.mem[..], table, lo, index, base, paged, v);
    }
  }

  lemma FilledMore(m: seq<int>, m1: seq<int>, n: seq<int>, table: int, lo: int, i: int, base: int, paged: bool, v: int)
    requires PageAt(table) && lo <= i && Filled(m, m1, table, lo, i, base, paged) && Stored(m1, n, table, i, v)
    requires v == base + (if paged then i * PAGE_SIZE else 0)
    ensures Filled(m, n, table, lo, i + 1, base, paged)
  {
    hide Entry;
    forall t, j | Slot(t, j)
      ensures Entry(n, t, j) ==
        var k := (t + 4 * j - table) / 4;
        if lo <= k < i + 1 then base + (if paged then k * PAGE_SIZE else 0) else Entry(m, t, j)
    {
      SlotIndex(table, t, j, i);
    }
  }

  lemma SlotIndex(table: int, t: int, j: int, i: int)
    requires PageAt(table) && Slot(t, j)
    ensures (t + 4 * j - table) / 4 == i <==> t + 4 * j == table + 4 * i
  {
    PageSlots(table);
  }

  method Get(a: Allocator, table: int, i: int) returns (v: int)
    requires a.Valid() && Slot(table, i)
    ensures v == Entry(a.mem[..], table, i)
  {
    WordAt(table, i);
    v := a.mem[(table + 4 * i - LO) / 4];
  }

  ghost predicate Copied(m: seq<int>, n: seq<int>, dst: int, src: int, count: int) {
    && (forall i :: 0 <= i < count ==> Entry(n, dst, i) == Entry(m, src, i))
    && (forall t, j :: Slot(t, j) && !(dst <= t + 4 * j < dst + 4 * count) ==> Entry(n, t, j) == Entry(m, t, j))
  }

  /** `memcpy(kernel_page, flatPTEs, 0x1000)`. */
  method CopyPage(a: Allocator, dst: int, src: int)
    requires a.Valid() && PageAt(dst) && PageAt(src) && dst != src && Range(dst, PAGE_SIZE) !! Bytes(a.free)
    modifies a.mem
    ensures a.Valid() && a.Books() == old(a.Books())
    ensures Copied(old(a.mem[..]), a.mem[..], dst, src, ENTRIES)
  {
    hide Bytes, Spelled, Entry, Copied, Stored;
    ghost var m := a.mem[..];
    CopiedNone(m, dst, src);
    PageSlots(dst);
    PageSlots(src);
    hide PageAt, Slot;
    for index := 0 to 1024
      invariant a.Valid() && a.Books() == old(a.Books()) && Copied(m, a.mem[..], dst, src, index)
    {
      assert dst + 4 * index in Range(dst, PAGE_SIZE);
      ghost var m1 := a.mem[..];
      var w := Get(a, src, index);
      Put(a, dst, index, w);
      CopiedMore(m, m1, a.mem[..], dst, src, index, w);
    }
  }

  lemma CopiedNone(m: seq<int>, dst: int, src: int)
    ensures Copied(m, m, dst, src, 0)
  {
  }

  lemma CopiedMore(m: seq<int>, m1: seq<int>, n: seq<int>, dst: int, src: int, i: int, v: int)
    requires PageAt(dst) && PageAt(src) && dst != src && 0 <= i < ENTRIES
    requires Copied(m, m1, dst, src, i) && Stored(m1, n, dst, i, v) && v == Entry(m1, src, i)
    ensures Copied(m, n, dst, src, i + 1)
  {
    hide Entry, PageAt, Slot;
    PageSlots(src);
    PageSlots(dst);
    PagesApart(src, dst);
    assert Slot(src, i);
  }

  /** The owner's words survive what the allocator does. */
  lemma OwnedKept(m: seq<int>, n: seq<int>, B: set<int>, table: int, count: int)
    requires ChangedInside(m, n, B) && |m| == WORDS && Range(table, 4 * count) !! B
    requires count > 0 ==> Slot(table, count - 1)
    ensures forall i :: 0 <= i < count ==> Entry(n, table, i) == Entry(m, table, i)
  {
    forall i | 0 <= i < count
      ensures Entry(n, table, i) == Entry(m, table, i)
    {
      WordAt(table, i);
      assert table + 4 * i in Range(table, 4 * count);
      assert LO + 4 * WordOf(table + 4 * i) == table + 4 * i;
    }
  }

  /** The pages of a 4 KB allocation. */
  lemma PageBlock(addr: int, bit: nat)
    requires Block(addr, bit).Good() && bit >= 12
    ensures PageAt(addr) && Span(Block(addr, bit)) == Range(addr, Pow2(bit))
  {
    AlignedLower(addr, bit, 12);
    Aligned12(addr);
    Pow2Monotone(12, bit);
    Pow2Of29();
  }

  lemma Aligned12(x: int)
    requires Aligned(x, 12)
    ensures x % PAGE_SIZE == 0
  {
    AlignedIsMultiple(x, 12);
    var q :| x == Pow2(12) * q;
    Pow2Of29();
    assert x == PAGE_SIZE * q;
    QuotientAt(q, 0);
  }

  /** Word i of one table is not in a page that has nothing to do with the table. */
  lemma OutOf(page: int, table: int, n: int, i: int)
    requires PageAt(table) && 0 <= i < n && table + 4 * n <= HI
    ensures Slot(table, i)
    ensures Range(page, PAGE_SIZE) !! Range(table, n * 4) ==> !(page <= table + 4 * i < page + PAGE_SIZE)
  {
    var q := table / PAGE_SIZE;
    assert table == 4 * (1024 * q);
    FourDivides(1024 * q);
    assert table + 4 * i in Range(table, n * 4);
  }

  /** The flat array and, once built, the first table, all still held. */
  ghost predicate FlatHeld(a: Allocator, flat: int, pages: nat)
    reads a, a.mem, a.heads
  {
    && a.Valid() && PageAt(flat) && 1024 < pages && flat + Rounded(pages) * 4 <= HI
    && Range(flat, Rounded(pages) * 4) <= a.owned && FlatFilled(a.mem[..], flat, pages, Rounded(pages))
  }

  lemma FlatTail(flat: int, pages: nat)
    requires Block(flat, 22).Good() && 1024 < pages <= 0x10_0000
    ensures Span(Block(flat, 22)) == Range(flat, REACH) && flat + REACH <= HI && PageAt(flat)
    ensures Rounded(pages) * 4 <= REACH && Rounded(pages) >= pages
    ensures Cuttable(flat + Rounded(pages) * 4, REACH - Rounded(pages) * 4, 2)
  {
    hide Aligned, Rounded, Pow2;
    PageBlock(flat, 22);
    Pow2Of29();
    RoundedFacts(pages);
    TailAligned(flat, Rounded(pages));
  }

  lemma RoundedFacts(pages: nat)
    requires 1024 < pages <= 0x10_0000
    ensures pages <= Rounded(pages) <= 0x10_0000 && Rounded(pages) % 1024 == 0 && Rounded(pages) < pages + 1024
  {
  }

  lemma TailAligned(flat: int, n: int)
    requires PageAt(flat)
    ensures Aligned(flat + n * 4, 2) && Aligned(REACH - n * 4, 2)
  {
    hide Aligned;
    var q := flat / PAGE_SIZE;
    assert flat + n * 4 == 4 * (1024 * q + n) && REACH - n * 4 == 4 * (0x10_0000 - n);
    FourDivides(1024 * q + n);
    FourDivides(0x10_0000 - n);
    Aligned2(flat + n * 4);
    Aligned2(REACH - n * 4);
  }

  /** `flatPTEs=memory_alloc(22)` and the return of the excess: the entries are taken, and
      no more. */
  method TakeFlat(a: Allocator, pages: nat) returns (r: Option<int>)
    requires a.Valid() && 1024 < pages <= 0x10_0000
    modifies a, a.mem, a.heads
    ensures r.Some? ==> a.Valid() && PageAt(r.value) && r.value + Rounded(pages) * 4 <= HI
    ensures r.Some? ==> a.Books() == old(a.Books()).Taken(Range(r.value, Rounded(pages) * 4))
  {
    hide Bytes, Spelled, Cuttable, NoRun, Pow2, Pieces, ChangedInside, LowestSufficient, Rounded, Aligned, Total;
    ghost var l0 := a.Books();
    var got, _ := a.MemoryAlloc(22);
    if got.None? {
      return None;
    }
    var flatPTEs, allocpages := got.value, Rounded(pages);
    FlatTail(flatPTEs, pages);
    ghost var tail := Range(flatPTEs + allocpages * 4, REACH - allocpages * 4);
    var _ := a.FreeNoCheck(flatPTEs + allocpages * 4, 0x40_0000 - allocpages * 4);
    TakenLess(l0, Range(flatPTEs, REACH), tail);
    assert Range(flatPTEs, REACH) - tail == Range(flatPTEs, allocpages * 4);
    r := Some(flatPTEs);
  }

  lemma FlatBuilt(m0: seq<int>, m1: seq<int>, m2: seq<int>, flat: int, pages: nat)
    requires PageAt(flat) && flat + Rounded(pages) * 4 <= HI && pages <= Rounded(pages)
    requires Filled(m0, m1, flat, 0, pages, PRESENT, true) && Filled(m1, m2, flat, pages, Rounded(pages), 0, true)
    ensures FlatFilled(m2, flat, pages, Rounded(pages))
  {
    hide Entry;
    assert forall i :: 0 <= i < Rounded(pages) ==> Slot(flat, i);
  }

  method BuildFlat(a: Allocator, pages: nat) returns (r: Option<int>)
    requires a.Valid() && 1024 < pages <= 0x10_0000
    modifies a, a.mem, a.heads
    ensures r.Some? ==> FlatHeld(a, r.value, pages)
    ensures r.Some? ==> a.Books() == old(a.Books()).Taken(Range(r.value, Rounded(pages) * 4))
  {
    hide Bytes, Spelled, Entry, Filled, FlatFilled;
    var got := TakeFlat(a, pages);
    if got.None? {
      return None;
    }
    var flatPTEs := got.value;
    ghost var m0 := a.mem[..];
    Fill(a, flatPTEs, 0, pages, PRESENT, true);
    ghost var m1 := a.mem[..];
    Fill(a, flatPTEs, pages, Rounded(pages), 0, true);
    FlatBuilt(m0, m1, a.mem[..], flatPTEs, pages);
    r := Some(flatPTEs);
  }

  /** ALLOC_PAGE(), with what is known of the page and of the words held so far. */
  method AllocPage(a: Allocator) returns (r: Option<int>)
    requires a.Valid()
    modifies a, a.mem, a.heads
    ensures r.Some? ==> a.Valid() && PageAt(r.value) && Range(r.value, PAGE_SIZE) !! old(a.owned)
    ensures r.Some? ==> a.Books() == old(a.Books()).Taken(Range(r.value, PAGE_SIZE))
    ensures r.Some? ==> ChangedInside(old(a.mem[..]), a.mem[..], Bytes(a.free))
  {
    hide Bytes, Spelled, NoRun, Pow2, Pieces, ChangedInside, LowestSufficient, Aligned, Total;
    var page, _ := a.MemoryAlloc(12);
    r := page;
    if r.Some? {
      PageBlock(r.value, 12);
      Pow2Of29();
    }
  }

  /** The flat array and n entries of the first table are in memory the kernel
      holds. */
  ghost predicate Held(a: Allocator, flat: int, pages: nat, first: int)
    reads a, a.mem, a.heads
  {
    FlatHeld(a, flat, pages) && PageAt(first) && Range(first, PAGE_SIZE) <= a.owned
    && Range(first, PAGE_SIZE) !! Range(flat, Rounded(pages) * 4)
  }

  lemma FlatKept(m: seq<int>, n: seq<int>, B: set<int>, flat: int, pages: nat)
    requires ChangedInside(m, n, B) && |m| == WORDS && Range(flat, Rounded(pages) * 4) !! B
    requires PageAt(flat) && flat + Rounded(pages) * 4 <= HI && FlatFilled(m, flat, pages, Rounded(pages))
    ensures FlatFilled(n, flat, pages, Rounded(pages))
  {
    OwnedKept(m, n, B, flat, Rounded(pages));
  }

  /** The copy of the first 1024 flat entries leaves the flat array alone. */
  lemma FirstCopied(m: seq<int>, n: seq<int>, first: int, flat: int, pages: nat)
    requires PageAt(flat) && PageAt(first) && 1024 < pages <= Rounded(pages) && flat + Rounded(pages) * 4 <= HI
    requires Range(first, PAGE_SIZE) !! Range(flat, Rounded(pages) * 4)
    requires Copied(m, n, first, flat, ENTRIES) && FlatFilled(m, flat, pages, Rounded(pages))
    ensures FlatFilled(n, flat, pages, Rounded(pages)) && FlatFilled(n, first, pages, ENTRIES)
  {
    hide Entry, Slot, PageAt, Rounded, Range;
    forall i | 0 <= i < Rounded(pages)
      ensures Entry(n, flat, i) == Entry(m, flat, i)
    {
      OutOf(first, flat, Rounded(pages), i);
    }
    assert forall i :: 0 <= i < ENTRIES ==> Entry(n, first, i) == Entry(m, flat, i);
  }

  /** The kernel's first table: a copy, not yet with the CPU's own page. */
  method BuildFirst(a: Allocator, flat: int, ghost pages: nat) returns (r: Option<int>)
    requires FlatHeld(a, flat, pages)
    modifies a, a.mem, a.heads
    ensures r.Some? ==> Held(a, flat, pages, r.value) && FlatFilled(a.mem[..], r.value, pages, ENTRIES)
    ensures r.Some? ==> a.Books() == old(a.Books()).Taken(Range(r.value, PAGE_SIZE))
  {
    hide Bytes, Spelled, Entry, Copied, FlatFilled, ChangedInside;
    ghost var m0 := a.mem[..];
    r := AllocPage(a);
    if r.Some? {
      ghost var m1 := a.mem[..];
      FlatKept(m0, m1, Bytes(a.free), flat, pages);
      assert flat in Range(flat, Rounded(pages) * 4);
      CopyPage(a, r.value, flat);
      FirstCopied(m1, a.mem[..], r.value, flat, pages);
    }
  }

  lemma PageEnds(a: int)
    requires PageAt(a)
    ensures a + 4 * ENTRIES <= HI
  {
  }

  lemma CpuPagePut(m: seq<int>, n: seq<int>, first: int, flat: int, cpu: int, pages: nat)
    requires PageAt(flat) && PageAt(first) && 1024 < pages && flat + Rounded(pages) * 4 <= HI
    requires Range(first, PAGE_SIZE) !! Range(flat, Rounded(pages) * 4)
    requires Stored(m, n, first, CPU_PAGE, cpu - PAGE_OFFSET + PRESENT)
    requires FlatFilled(m, flat, pages, Rounded(pages)) && FlatFilled(m, first, pages, ENTRIES)
    ensures FlatFilled(n, flat, pages, Rounded(pages)) && FirstFilled(n, first, cpu, ENTRIES)
  {
    PageEnds(first);
    hide Entry, Slot, PageAt, Rounded, Range;
    forall i | 0 <= i < Rounded(pages)
      ensures Entry(n, flat, i) == Entry(m, flat, i)
    {
      OutOf(first, flat, Rounded(pages), i);
    }
    forall i | 0 <= i < ENTRIES
      ensures Entry(n, first, i) == if i == CPU_PAGE then cpu - PAGE_OFFSET + PRESENT else Entry(m, first, i)
    {
      OutOf(first, first, ENTRIES, i);
    }
  }

  /** `kernel_page[va2flat_pte(KERNEL_STRUCTURE)]=(u32)ALLOC_PAGE()-PAGE_OFFSET+0b11111`. */
  method GiveCpuPage(a: Allocator, flat: int, ghost pages: nat, first: int) returns (r: Option<int>)
    requires Held(a, flat, pages, first) && FlatFilled(a.mem[..], first, pages, ENTRIES)
    modifies a, a.mem, a.heads
    ensures r.Some? ==> Held(a, flat, pages, first) && FirstFilled(a.mem[..], first, r.value, ENTRIES) && PageAt(r.value)
    ensures r.Some? ==> a.Books() == old(a.Books()).Taken(Range(r.value, PAGE_SIZE))
  {
    hide Bytes, Spelled, Entry, FlatFilled, FirstFilled, ChangedInside, Stored, PageAt, Slot, Rounded;
    ghost var m0 := a.mem[..];
    r := AllocPage(a);
    if r.Some? {
      ghost var m1 := a.mem[..];
      FlatKept(m0, m1, Bytes(a.free), flat, pages);
      FirstKept(m0, m1, Bytes(a.free), first, pages);
      PageSlots(first);
      assert first + 4 * CPU_PAGE in Range(first, PAGE_SIZE);
      Put(a, first, CPU_PAGE, r.value - PAGE_OFFSET + PRESENT);
      CpuPagePut(m1, a.mem[..], first, flat, r.value, pages);
    }
  }

  lemma FirstKept(m: seq<int>, n: seq<int>, B: set<int>, first: int, pages: nat)
    requires ChangedInside(m, n, B) && |m| == WORDS && Range(first, PAGE_SIZE) !! B && PageAt(first)
    ensures FlatFilled(m, first, pages, ENTRIES) ==> FlatFilled(n, first, pages, ENTRIES)
    ensures forall cpu :: FirstFilled(m, first, cpu, ENTRIES) ==> FirstFilled(n, first, cpu, ENTRIES)
  {
    hide Entry, ChangedInside, PageAt, Slot;
    PageSlots(first);
    OwnedKept(m, n, B, first, ENTRIES);
  }

  /** The three parts of the directory, in turn. */
  method FillDirectory(a: Allocator, pde: int, flat: int, first: int, tables: nat)
    requires a.Valid() && PageAt(pde) && Range(pde, PAGE_SIZE) <= a.owned && 1 <= tables <= 192
    modifies a.mem
    ensures a.Valid() && a.Books() == old(a.Books())
    ensures DirectoryFilled(a.mem[..], pde, flat, first, tables, ENTRIES)
    ensures OnlyPage(old(a.mem[..]), a.mem[..], pde)
  {
    hide Bytes, Spelled, Entry, Filled, Stored, DirectoryFilled, OnlyPage;
    ghost var m0 := a.mem[..];
    Fill(a, pde, 0, 768, 0, false);
    ghost var m1 := a.mem[..];
    assert pde + 4 * 768 in Range(pde, PAGE_SIZE);
    Put(a, pde, 768, first - PAGE_OFFSET + PRESENT);
    ghost var m2 := a.mem[..];
    Fill(a, pde, 769, 768 + tables, flat - PAGE_OFFSET + PRESENT - 768 * PAGE_SIZE, true);
    ghost var m3 := a.mem[..];
    Fill(a, pde, 768 + tables, 1024, 0, false);
    DirectoryParts(m0, m1, m2, m3, a.mem[..], pde, flat, first, tables);
  }

  lemma DirectoryParts(m0: seq<int>, m1: seq<int>, m2: seq<int>, m3: seq<int>, m4: seq<int>,
                       pde: int, flat: int, first: int, tables: nat)
    requires PageAt(pde) && 1 <= tables <= 192
    requires Filled(m0, m1, pde, 0, 768, 0, false) && Stored(m1, m2, pde, 768, first - PAGE_OFFSET + PRESENT)
    requires Filled(m2, m3, pde, 769, 768 + tables, flat - PAGE_OFFSET + PRESENT - 768 * PAGE_SIZE, true)
    requires Filled(m3, m4, pde, 768 + tables, 1024, 0, false)
    ensures DirectoryFilled(m4, pde, flat, first, tables, ENTRIES) && OnlyPage(m0, m4, pde)
  {
    hide Entry, PageAt, Slot;
    PageSlots(pde);
  }

  /** Only words of the page differ, as far as table entries go. */
  ghost predicate OnlyPage(m: seq<int>, n: seq<int>, page: int) {
    forall t, j :: Slot(t, j) && !(page <= t + 4 * j < page + PAGE_SIZE) ==> Entry(n, t, j) == Entry(m, t, j)
  }

  /** Where the parts of the kernel's tables are. */
  datatype KernelTables = KernelTables(pde: int, flat: int, first: int, cpu: int)

  /** Their bytes. */
  ghost function TableBytes(t: KernelTables, pages: nat): set<int> {
    Range(t.flat, Rounded(pages) * 4) + Range(t.first, PAGE_SIZE) + Range(t.cpu, PAGE_SIZE) + Range(t.pde, PAGE_SIZE)
  }

  /** The tables are built in words the kernel holds. */
  ghost predicate TablesHeld(a: Allocator, t: KernelTables, pages: nat)
    reads a, a.mem, a.heads
  {
    a.Valid() && Built(a.mem[..], t.pde, t.flat, t.first, t.cpu, pages) && TableBytes(t, pages) <= a.owned
  }

  /** init_paging, for the memory size the kernel insists on. None stands for the
      halt of an allocation that failed. */
  method InitPaging(a: Allocator, memsize: u32) returns (r: Option<int>, ghost t: KernelTables)
    requires a.Valid() && memsize >= 0x100_0000
    modifies a, a.mem, a.heads
    ensures r.Some? ==> r.value == t.pde && TablesHeld(a, t, memsize / 0x1000)
    ensures r.Some? ==> a.Books() == old(a.Books()).Taken(TableBytes(t, memsize / 0x1000))
    ensures r.Some? ==> KernelMapping(a.mem[..], t.pde, t.cpu, memsize)
  {
    hide Bytes, Spelled, Entry, FlatFilled, FirstFilled, DirectoryFilled, ChangedInside, OnlyPage, Rounded, Tables, Walk;
    ghost var l := a.Books();
    t := KernelTables(0, 0, 0, 0);
    var pages := memsize / 0x1000;
    var flat := BuildFlat(a, pages);
    if flat.None? {
      return None, t;
    }
    var first := BuildFirst(a, flat.value, pages);
    if first.None? {
      return None, t;
    }
    var own := GiveCpuPage(a, flat.value, pages, first.value);
    if own.None? {
      return None, t;
    }
    ghost var m0 := a.mem[..];
    r := AllocPage(a);
    if r.Some? {
      t := KernelTables(r.value, flat.value, first.value, own.value);
      TakenFour(l, Range(t.flat, Rounded(pages) * 4), Range(t.first, PAGE_SIZE), Range(t.cpu, PAGE_SIZE), Range(t.pde, PAGE_SIZE));
      ghost var m1 := a.mem[..];
      FlatKept(m0, m1, Bytes(a.free), t.flat, pages);
      FirstKept(m0, m1, Bytes(a.free), t.first, pages);
      TablesBound(pages);
      FillDirectory(a, r.value, flat.value, first.value, Tables(pages));
      AllBuilt(m1, a.mem[..], t.pde, t.flat, t.first, t.cpu, pages);
      BuiltMaps(a.mem[..], t, memsize);
    }
  }

  lemma TakenFour(l: Ledger, A: set<int>, B: set<int>, C: set<int>, D: set<int>)
    ensures l.Taken(A).Taken(B).Taken(C).Taken(D) == l.Taken(A + B + C + D)
  {
    TakenTwice(l, A, B);
    TakenTwice(l, A + B, C);
    TakenTwice(l, A + B + C, D);
  }

  lemma BuiltMaps(mem: seq<int>, t: KernelTables, memsize: u32)
    requires Built(mem, t.pde, t.flat, t.first, t.cpu, memsize / 0x1000)
    ensures KernelMapping(mem, t.pde, t.cpu, memsize)
  {
    hide Built, Walk;
    forall v: u32
      ensures Maps(mem, t.pde, t.cpu, memsize, v)
    {
      WalkBuilt(mem, t.pde, t.flat, t.first, t.cpu, memsize / 0x1000, v);
    }
  }

  /** Nothing the allocator does elsewhere disturbs the tables. */
  lemma TablesKept(m: seq<int>, n: seq<int>, B: set<int>, t: KernelTables, pages: nat)
    requires Built(m, t.pde, t.flat, t.first, t.cpu, pages) && ChangedInside(m, n, B) && TableBytes(t, pages) !! B
    ensures Built(n, t.pde, t.flat, t.first, t.cpu, pages)
  {
    hide Entry, ChangedInside, Rounded, Tables, Slot, PageAt, Range, FlatFilled, FirstFilled, DirectoryFilled;
    BytesApart(t, pages, B);
    FlatKept(m, n, B, t.flat, pages);
    FirstKept(m, n, B, t.first, pages);
    DirectoryKept(m, n, B, t, Tables(pages));
  }

  lemma BytesApart(t: KernelTables, pages: nat, B: set<int>)
    requires TableBytes(t, pages) !! B
    ensures Range(t.flat, Rounded(pages) * 4) !! B && Range(t.first, PAGE_SIZE) !! B && Range(t.pde, PAGE_SIZE) !! B
  {
    hide Rounded, Range;
  }

  lemma DirectoryKept(m: seq<int>, n: seq<int>, B: set<int>, t: KernelTables, tables: nat)
    requires ChangedInside(m, n, B) && |m| == WORDS && Range(t.pde, PAGE_SIZE) !! B && PageAt(t.pde)
    requires DirectoryFilled(m, t.pde, t.flat, t.first, tables, ENTRIES)
    ensures DirectoryFilled(n, t.pde, t.flat, t.first, tables, ENTRIES) && |n| == WORDS
  {
    hide Entry, PageAt, Slot;
    PageSlots(t.pde);
    OwnedKept(m, n, B, t.pde, ENTRIES);
  }

  lemma TablesBound(pages: nat)
    requires 1024 < pages
    ensures 1 <= Tables(pages) <= 192 && pages <= Rounded(pages)
  {
  }

  lemma AllBuilt(m: seq<int>, n: seq<int>, pde: int, flat: int, first: int, cpu: int, pages: nat)
    requires |n| == WORDS && PageAt(pde) && PageAt(flat) && PageAt(first) && PageAt(cpu)
    requires 1024 < pages && flat + Rounded(pages) * 4 <= HI
    requires FlatFilled(m, flat, pages, Rounded(pages)) && FirstFilled(m, first, cpu, ENTRIES)
    requires DirectoryFilled(n, pde, flat, first, Tables(pages), ENTRIES) && OnlyPage(m, n, pde)
    requires Range(pde, PAGE_SIZE) !! Range(flat, Rounded(pages) * 4) && Range(pde, PAGE_SIZE) !! Range(first, PAGE_SIZE)
    ensures Built(n, pde, flat, first, cpu, pages)
  {
    PageEnds(first);
    hide Entry, Slot, PageAt, Rounded, Range, Tables;
    forall i | 0 <= i < Rounded(pages)
      ensures Entry(n, flat, i) == Entry(m, flat, i)
    {
      OutOf(pde, flat, Rounded(pages), i);
    }
    forall i | 0 <= i < ENTRIES
      ensures Entry(n, first, i) == Entry(m, first, i)
    {
      OutOf(pde, first, ENTRIES, i);
    }
  }

  /** What address v is mapped to. */
  ghost predicate Maps(mem: seq<int>, pde: int, cpu: int, memsize: u32, v: u32) {
    var off := v - PAGE_OFFSET;
    Walk(mem, pde, v) ==
      if v < PAGE_OFFSET then None
      else if off / PAGE_SIZE == CPU_PAGE then Some(cpu - PAGE_OFFSET + v % PAGE_SIZE)
      else if off / PAGE_SIZE < memsize / PAGE_SIZE && off < MAX_MAPPING then Some(off)
      else None
  }

  ghost predicate KernelMapping(mem: seq<int>, pde: int, cpu: int, memsize: u32) {
    forall v: u32 :: Maps(mem, pde, cpu, memsize, v)
  }

  /** A size that, if not refused, is not one of less than 16 MB once it is taken as a
      32-bit word. */
  predicate SizeFits(max: nat) { max < 0x100_0000 || Wrap(max) >= 0x100_0000 }

  /** init_memory: both passes with the page tables built in between, over memory
      of which nothing is managed yet. Each available byte between the kernel's end
      and the end of the kernel mapping is managed once, and no other; all of it is free
      but for the tables, which are as they were built; and every managed byte of the
      whole pages of memory is mapped at its own address. */
  method InitMemory(a: Allocator, map_: seq<ARDSItem>) returns (r: Option<int>, memsize: u32, ghost t: KernelTables)
    requires a.Valid() && a.arena == {} && ProperMap(map_, MAX_MAPPING) && SizeFits(LastEnd(map_, |map_|))
    modifies a, a.mem, a.heads
    ensures memsize == Wrap(LastEnd(map_, |map_|)) && (LastEnd(map_, |map_|) < 0x100_0000 ==> r.None?)
    ensures forall i: nat :: LastCounted(map_, i) ==>
              memsize == (map_[i].base + map_[i].limit) % 0x1_0000_0000_0000_0000 % 0x1_0000_0000
    ensures (forall i: nat :: !LastCounted(map_, i)) ==> memsize == 0 && r.None?
    ensures r.Some? ==> r.value == t.pde && TablesHeld(a, t, memsize / 0x1000)
    ensures r.Some? ==> a.arena == AvailableIn(map_, |map_|, KERNEL_END, MAX_MAPPING)
                        && a.owned == TableBytes(t, memsize / 0x1000)
    ensures r.Some? ==> KernelMapping(a.mem[..], t.pde, t.cpu, memsize)
    ensures r.Some? ==> forall x: u32 :: x in a.arena && (x - PAGE_OFFSET) / PAGE_SIZE < memsize / PAGE_SIZE ==>
                          Walk(a.mem[..], t.pde, x) == Some(x - PAGE_OFFSET)
  {
    hide Spelled, Bytes, AvailableIn, KernelMapping, ProperMap, Built, TableBytes, ChangedInside, Walk;
    ghost var n := |map_|;
    WindowsJoin(map_, n);
    ProperBelow(map_, LOADER_MAPPED, MAX_MAPPING);
    assert Bytes(a.free) == {} && a.owned == {};
    var max := FirstPass(a, map_);
    assert a.arena == AvailableIn(map_, n, KERNEL_END, LOADER_MAPPED) && a.owned == {};
    memsize := Wrap(max);
    if max < 0x100_0000 {
      return None, memsize, KernelTables(0, 0, 0, 0);
    }
    r, t := InitPaging(a, memsize);
    if r.Some? {
      ghost var m, tables := a.mem[..], TableBytes(t, memsize / 0x1000);
      assert a.owned == tables && tables <= a.arena;
      assert a.owned - AvailableIn(map_, n, LOADER_MAPPED, MAX_MAPPING) == a.owned;
      SecondPass(a, map_);
      TablesKept(m, a.mem[..], Bytes(a.free), t, memsize / 0x1000);
      BuiltMaps(a.mem[..], t, memsize);
      forall x: u32 | x in a.arena && (x - PAGE_OFFSET) / PAGE_SIZE < memsize / PAGE_SIZE
        ensures Walk(a.mem[..], t.pde, x) == Some(x - PAGE_OFFSET)
      {
        ManagedMapped(a.mem[..], map_, n, t, memsize, x);
      }
    }
  }

  lemma ManagedMapped(mem: seq<int>, map_: seq<ARDSItem>, n: nat, t: KernelTables, memsize: u32, x: u32)
    requires n <= |map_| && x in AvailableIn(map_, n, KERNEL_END, MAX_MAPPING) && KernelMapping(mem, t.pde, t.cpu, memsize)
    requires (x - PAGE_OFFSET) / PAGE_SIZE < memsize / PAGE_SIZE
    ensures Walk(mem, t.pde, x) == Some(x - PAGE_OFFSET)
  {
    hide Walk;
    assert Maps(mem, t.pde, t.cpu, memsize, x);
  }
}
