// The end of a process (kernel/process/proc.c:144-196, kernel/process/page.c:73-113):
// which pages go back to the free list, and how often each does.
module Dispose {
  import opened Pages

  // ------------------------------------------------- what the loops hand back

  /** The page one entry's turn hands back: what is mapped, if it is to be. */
  function OfEntry(e: Pte, phyToo: bool): multiset<Frame> {
    if e.Page? && (phyToo || !e.phy) then multiset{e.frame} else multiset{}
  }

  /** The pages one table's loop hands back: all that is mapped, with or without
      what is marked PAGE_TYPE_PHY. */
  ghost function OfEntries(entries: seq<Pte>, phyToo: bool): multiset<Frame> {
    if entries == [] then multiset{}
    else OfEntries(entries[..|entries| - 1], phyToo) + OfEntry(entries[|entries| - 1], phyToo)
  }

  /** A table's pages, then its own. */
  ghost function OfTable(tables: map<Frame, seq<Pte>>, pde: Pte, phyToo: bool): multiset<Frame> {
    if pde.Page? && pde.frame in tables then OfEntries(tables[pde.frame], phyToo) + multiset{pde.frame} else multiset{}
  }

  ghost function OfDirectory(tables: map<Frame, seq<Pte>>, directory: seq<Pte>): multiset<Frame> {
    if directory == [] then multiset{}
    else OfDirectory(tables, directory[..|directory| - 1]) + OfTable(tables, directory[|directory| - 1], false)
  }

  ghost function OfQueue(queue: seq<Msg>): multiset<Frame> {
    if queue == [] then multiset{} else OfQueue(queue[..|queue| - 1]) + multiset{queue[|queue| - 1].frame}
  }

  /** Everything a disposal hands back: the stack, whatever its marks; the rest of
      the address space, without marked pages; the queued messages; the thread. */
  ghost function Recycled(s: Sys, p: Pid): multiset<Frame>
    requires Wf(s) && p in s.procs
  {
    assert WfProc(s, p);
    var q := s.procs[p];
    var d := s.tables[q.cr3];
    OfTable(s.tables, d[STACK_TOP_TABLE], true) + OfTable(s.tables, d[STACK_TOP_TABLE - 1], true)
    + OfDirectory(s.tables, NoStack(d)[..USER_TABLES]) + multiset{q.cr3} + OfQueue(q.queue) + multiset{q.thread}
  }

  /** A free list, and every page ever handed back to it, as often as it was. */
  datatype Store = Store(free: set<Frame>, recycled: multiset<Frame>)

  /** The pages of h went back to the store, and no others. */
  ghost predicate Back(a: Store, b: Store, h: multiset<Frame>) {
    b.recycled == a.recycled + h && forall f :: f in b.free <==> f in a.free || f in h
  }

  lemma BackMore(a: Store, b: Store, c: Store, h: multiset<Frame>, k: multiset<Frame>)
    requires Back(a, b, h) && Back(b, c, k)
    ensures Back(a, c, h + k)
  {
  }

  lemma BackNone(a: Store)
    ensures Back(a, a, multiset{})
  {
  }

  lemma NextEntry(entries: seq<Pte>, n: nat, phyToo: bool)
    requires n < |entries|
    ensures OfEntries(entries[..0], phyToo) == multiset{}
    ensures OfEntries(entries[..n + 1], phyToo) == OfEntries(entries[..n], phyToo) + OfEntry(entries[n], phyToo)
  {
    assert entries[..n + 1][..n] == entries[..n];
  }

  lemma NextTable(tables: map<Frame, seq<Pte>>, d: seq<Pte>, n: nat)
    requires n < |d|
    ensures OfDirectory(tables, d[..0]) == multiset{}
    ensures OfDirectory(tables, d[..n + 1]) == OfDirectory(tables, d[..n]) + OfTable(tables, d[n], false)
    ensures d[n].Absent? ==> OfDirectory(tables, d[..n + 1]) == OfDirectory(tables, d[..n])
  {
    assert d[..n + 1][..n] == d[..n];
  }

  lemma NextMessage(queue: seq<Msg>, n: nat)
    requires n < |queue|
    ensures OfQueue(queue[..n + 1]) == OfQueue(queue[..n]) + multiset{queue[n].frame}
  {
    assert queue[..n + 1][..n] == queue[..n];
  }

  // ----------------------------------------------------- whose pages those are

  ghost predicate HeldIn(s: Sys, f: Frame, D: iset<Place>)
    requires Wf(s)
  {
    exists a :: a in D && HeldAt(s, f, a)
  }

  /** h has the page of each place of D, once. */
  ghost predicate Exactly(s: Sys, h: multiset<Frame>, D: iset<Place>)
    requires Wf(s)
  {
    forall f :: h[f] == if HeldIn(s, f, D) then 1 else 0
  }

  /** The first n tables of a process, and all that is mapped through them. */
  ghost function Full(p: Pid, n: nat): iset<Place> {
    iset a: Place | (a.Table? && a.p == p && a.i < n) || (a.Mapped? && a.p == p && a.v / ENTRIES < n)
  }

  /** What the first j entries of table i map. */
  ghost function Part(p: Pid, i: nat, j: nat): iset<Place> {
    iset a: Place | a.Mapped? && a.p == p && a.v / ENTRIES == i && a.v % ENTRIES < j
  }

  ghost function Slots(p: Pid, lo: nat, n: nat): iset<Place> {
    iset a: Place | a.Slot? && a.p == p && lo <= a.n < n
  }

  lemma OnePage(s: Sys, f: Frame, g: Frame, a: Place)
    requires Wf(s) && HeldAt(s, f, a) && HeldAt(s, g, a) && a != FreeList
    ensures f == g
  {
  }

  lemma HeldInMore(s: Sys, f: Frame, D: iset<Place>, here: Place)
    requires Wf(s)
    ensures HeldIn(s, f, D + iset{here}) <==> HeldIn(s, f, D) || HeldAt(s, f, here)
  {
    hide HeldAt, Wf;
    if HeldIn(s, f, D) {
      var a :| a in D && HeldAt(s, f, a);
      assert a in D + iset{here};
    }
    if HeldAt(s, f, here) {
      assert here in D + iset{here};
    }
  }

  /** One more place, which may hold a page. */
  lemma NextPlace(s: Sys, h: multiset<Frame>, D: iset<Place>, here: Place)
    requires Wf(s) && Tiled(s) && Exactly(s, h, D) && here !in D && here != FreeList
    ensures forall f :: HeldAt(s, f, here) ==> Exactly(s, h + multiset{f}, D + iset{here})
    ensures (forall f :: !HeldAt(s, f, here)) ==> Exactly(s, h, D + iset{here})
  {
    hide HeldAt, Wf;
    forall f
      ensures HeldIn(s, f, D + iset{here}) <==> HeldIn(s, f, D) || HeldAt(s, f, here)
    {
      HeldInMore(s, f, D, here);
    }
    forall f, g | HeldAt(s, f, here) && HeldAt(s, g, here)
      ensures f == g
    {
      OnePage(s, f, g, here);
    }
  }

  /** One more page number, mapped or not. */
  lemma NextPage(s: Sys, h: multiset<Frame>, D: iset<Place>, p: Pid, v: nat)
    requires Wf(s) && Tiled(s) && Exactly(s, h, D) && Mapped(p, v) !in D
    ensures var e := Lookup(s, p, v);
            Exactly(s, if e.Page? && !e.phy then h + multiset{e.frame} else h, D + iset{Mapped(p, v)})
  {
    hide Lookup, Exactly, Wf, Tiled;
    var e := Lookup(s, p, v);
    NextPlace(s, h, D, Mapped(p, v));
    assert forall f :: HeldAt(s, f, Mapped(p, v)) <==> e == Page(f, false);
  }

  lemma PartGrows(p: Pid, i: nat, j: nat)
    requires j <= ENTRIES
    ensures j == 0 ==> Full(p, i) + Part(p, i, j) == Full(p, i)
    ensures j > 0 ==>
              var here := Mapped(p, i * ENTRIES + j - 1);
              here !in Full(p, i) + Part(p, i, j - 1)
              && Full(p, i) + Part(p, i, j - 1) + iset{here} == Full(p, i) + Part(p, i, j)
  {
    if j > 0 { PageParts(i, j - 1); }
  }

  /** The first j entries of table i, after the tables before it. */
  lemma {:induction false} EntriesExactly(s: Sys, h: multiset<Frame>, p: Pid, i: nat, j: nat)
    requires Wf(s) && Tiled(s) && HasTable(s, p, i) && j <= ENTRIES && Exactly(s, h, Full(p, i))
    ensures p in s.procs && WfProc(s, p)
    ensures Exactly(s, h + OfEntries(s.tables[DirEntry(s, p, i).frame][..j], false), Full(p, i) + Part(p, i, j))
  {
    hide Tiled, KernelWf, Full, Part, Exactly, HeldAt, OfEntries;
    assert WfProc(s, p);
    var entries := s.tables[DirEntry(s, p, i).frame];
    PartGrows(p, i, j);
    NoEntry(entries, h);
    if j > 0 {
      EntriesExactly(s, h, p, i, j - 1);
      PageParts(i, j - 1);
      MoreEntries(entries, j, h);
      assert entries[j - 1] == Lookup(s, p, i * ENTRIES + j - 1);
      NextPage(s, h + OfEntries(entries[..j - 1], false), Full(p, i) + Part(p, i, j - 1), p, i * ENTRIES + j - 1);
    }
  }

  lemma NoEntry(entries: seq<Pte>, h: multiset<Frame>)
    ensures h + OfEntries(entries[..0], false) == h
  {
  }

  lemma MoreEntries(entries: seq<Pte>, j: nat, h: multiset<Frame>)
    requires 0 < j <= |entries|
    ensures var e, k := entries[j - 1], h + OfEntries(entries[..j - 1], false);
            h + OfEntries(entries[..j], false) == if e.Page? && !e.phy then k + multiset{e.frame} else k
  {
    assert entries[..j][..j - 1] == entries[..j - 1];
  }

  /** One more table, present or not. */
  lemma TableExactly(s: Sys, h: multiset<Frame>, p: Pid, i: nat)
    requires Wf(s) && Tiled(s) && p in s.procs && i < USER_TABLES && Exactly(s, h, Full(p, i))
    ensures Exactly(s, h + OfTable(s.tables, DirEntry(s, p, i), false), Full(p, i + 1))
  {
    assert WfProc(s, p);
    if DirEntry(s, p, i).Page? {
      EntriesExactly(s, h, p, i, ENTRIES);
      var entries, here := s.tables[DirEntry(s, p, i).frame], Table(p, i);
      assert entries[..ENTRIES] == entries;
      assert Full(p, i) + Part(p, i, ENTRIES) + iset{here} == Full(p, i + 1);
      NextPlace(s, h + OfEntries(entries, false), Full(p, i) + Part(p, i, ENTRIES), here);
      assert HeldAt(s, DirEntry(s, p, i).frame, here);
      assert h + OfTable(s.tables, DirEntry(s, p, i), false) == h + OfEntries(entries, false) + multiset{DirEntry(s, p, i).frame};
    } else {
      assert h + OfTable(s.tables, DirEntry(s, p, i), false) == h;
      NoTable(s, p, i);
    }
  }

  /** A table that is not there holds nothing. */
  lemma NoTable(s: Sys, p: Pid, i: nat)
    requires Wf(s) && DirEntry(s, p, i).Absent?
    ensures forall f :: HeldIn(s, f, Full(p, i + 1)) <==> HeldIn(s, f, Full(p, i))
  {
    forall f
      ensures HeldIn(s, f, Full(p, i + 1)) <==> HeldIn(s, f, Full(p, i))
    {
      if HeldIn(s, f, Full(p, i + 1)) {
        var a :| a in Full(p, i + 1) && HeldAt(s, f, a);
        assert a in Full(p, i);
      }
      if HeldIn(s, f, Full(p, i)) {
        var a :| a in Full(p, i) && HeldAt(s, f, a);
        assert a in Full(p, i + 1);
      }
    }
  }

  lemma {:induction false} DirectoryExactly(s: Sys, p: Pid, n: nat)
    requires Wf(s) && Tiled(s) && p in s.procs && n <= USER_TABLES
    ensures WfProc(s, p) && Exactly(s, OfDirectory(s.tables, s.tables[s.procs[p].cr3][..n]), Full(p, n))
  {
    hide Exactly, OfTable, Full, Tiled, OfDirectory, HeldIn;
    assert WfProc(s, p);
    var d := s.tables[s.procs[p].cr3];
    if n > 0 {
      DirectoryExactly(s, p, n - 1);
      NextTable(s.tables, d, n - 1);
      TableExactly(s, OfDirectory(s.tables, d[..n - 1]), p, n - 1);
      assert DirEntry(s, p, n - 1) == d[n - 1];
    } else {
      NoTablesYet(s, p);
      NextTable(s.tables, d, 0);
    }
  }

  lemma NoTablesYet(s: Sys, p: Pid)
    requires Wf(s)
    ensures Exactly(s, multiset{}, Full(p, 0))
  {
    forall f
      ensures !HeldIn(s, f, Full(p, 0))
    {
    }
  }

  lemma {:induction false} QueueExactly(s: Sys, h: multiset<Frame>, D: iset<Place>, p: Pid, n: nat)
    requires Wf(s) && Tiled(s) && p in s.procs && p in s.log && Logged(s, p) && n <= |s.procs[p].queue|
    requires Exactly(s, h, D) && forall k :: Slot(p, k) !in D
    ensures var lo := |s.log[p].received|;
            Exactly(s, h + OfQueue(s.procs[p].queue[..n]), D + Slots(p, lo, lo + n))
  {
    hide Wf, Tiled, Exactly, HeldAt, OfQueue, Slots;
    var lo, queue := |s.log[p].received|, s.procs[p].queue;
    SlotsGrow(D, p, lo, n);
    MoreQueue(queue, n, h);
    if n > 0 {
      QueueExactly(s, h, D, p, n - 1);
      var here := Slot(p, lo + n - 1);
      QueuedAt(s, p, n - 1);
      NextPlace(s, h + OfQueue(queue[..n - 1]), D + Slots(p, lo, lo + n - 1), here);
    }
  }

  lemma SlotsGrow(D: iset<Place>, p: Pid, lo: nat, n: nat)
    requires forall k :: Slot(p, k) !in D
    ensures n == 0 ==> D + Slots(p, lo, lo + n) == D
    ensures n > 0 ==> Slot(p, lo + n - 1) !in D + Slots(p, lo, lo + n - 1)
                      && D + Slots(p, lo, lo + n - 1) + iset{Slot(p, lo + n - 1)} == D + Slots(p, lo, lo + n)
  {
  }

  lemma MoreQueue(queue: seq<Msg>, n: nat, h: multiset<Frame>)
    requires n <= |queue|
    ensures n == 0 ==> h + OfQueue(queue[..n]) == h
    ensures n > 0 ==> h + OfQueue(queue[..n]) == h + OfQueue(queue[..n - 1]) + multiset{queue[n - 1].frame}
  {
    if n > 0 { assert queue[..n][..n - 1] == queue[..n - 1]; }
  }

  lemma QueuedAt(s: Sys, p: Pid, k: nat)
    requires Wf(s) && p in s.procs && p in s.log && Logged(s, p) && k < |s.procs[p].queue|
    ensures HeldAt(s, s.procs[p].queue[k].frame, Slot(p, |s.log[p].received| + k))
  {
    hide Wf;
  }

  /** What the process has at PAGE_OFFSET or above: tables of its own, and what is mapped
      through these or the kernel's. */
  ghost predicate HeldHigh(s: Sys, f: Frame, p: Pid)
    requires Wf(s)
  {
    exists a: Place :: HighPlace(a, p) && HeldAt(s, f, a)
  }

  predicate HighPlace(a: Place, p: Pid) {
    (a.Table? && a.p == p && a.i >= USER_TABLES) || (a.Mapped? && a.p == p && a.v >= USER_PAGES)
  }

  ghost function High(s: Sys, p: Pid): set<Frame>
    requires Wf(s)
  {
    set f | f in s.managed && HeldHigh(s, f, p)
  }

  lemma HighHas(s: Sys, f: Frame, a: Place, p: Pid)
    requires Wf(s) && Tiled(s) && HighPlace(a, p) && HeldAt(s, f, a)
    ensures f in High(s, p)
  {
  }

  lemma HighNone(s: Sys, p: Pid)
    requires Wf(s) && Tiled(s)
    ensures High(s, p) == {} <==> LowOnly(s, p)
    ensures High(s, p) <= Owned(s, p)
  {
    if High(s, p) == {} {
      forall i: nat | i >= USER_TABLES
        ensures !HasTable(s, p, i)
      {
        if HasTable(s, p, i) { HighHas(s, DirEntry(s, p, i).frame, Table(p, i), p); }
      }
      forall v: nat | v >= USER_PAGES && Lookup(s, p, v).Page?
        ensures Lookup(s, p, v).phy
      {
        if !Lookup(s, p, v).phy { HighHas(s, Lookup(s, p, v).frame, Mapped(p, v), p); }
      }
    }
    forall f | f in High(s, p)
      ensures f in Owned(s, p) && !LowOnly(s, p)
    {
      var a :| HighPlace(a, p) && HeldAt(s, f, a);
      assert OfProc(a, p);
    }
  }

  /** All the places of a process below PAGE_OFFSET. */
  lemma AllPlaces(s: Sys, h: multiset<Frame>, p: Pid)
    requires Wf(s) && Tiled(s) && p in s.procs
    requires Exactly(s, h, Full(p, USER_TABLES) + iset{Directory(p)} + Slots(p, |s.log[p].received|, |s.log[p].accepted|)
                           + iset{ThreadPage(p)})
    ensures h == multiset(Owned(s, p) - High(s, p))
  {
    var D := Full(p, USER_TABLES) + iset{Directory(p)} + Slots(p, |s.log[p].received|, |s.log[p].accepted|)
             + iset{ThreadPage(p)};
    forall f
      ensures HeldIn(s, f, D) <==> f in Owned(s, p) - High(s, p)
    {
      if HeldIn(s, f, D) {
        var a :| a in D && HeldAt(s, f, a);
        assert OfProc(a, p);
        forall b: Place | HighPlace(b, p) && HeldAt(s, f, b)
          ensures false
        {
          assert a == b;
          LowerPlace(a, p);
        }
      }
      if f in Owned(s, p) - High(s, p) {
        var a :| OfProc(a, p) && HeldAt(s, f, a);
        assert !HighPlace(a, p);
        LowerPlace(a, p);
        assert a in D;
      }
    }
  }

  lemma LowerPlace(a: Place, p: Pid)
    ensures a in Full(p, USER_TABLES) <==> ((a.Table? || a.Mapped?) && a.p == p && !HighPlace(a, p))
  {
  }

  lemma HeldRecords(s: Sys, p: Pid)
    requires Wf(s) && p in s.procs
    ensures HeldAt(s, s.procs[p].cr3, Directory(p)) && HeldAt(s, s.procs[p].thread, ThreadPage(p))
  {
  }

  /** Leaving marked pages alone throughout would hand back what the process owns below
      PAGE_OFFSET. */
  lemma CleanExactly(s: Sys, p: Pid)
    requires Wf(s) && Tiled(s) && p in s.procs && p in s.log && Logged(s, p)
    ensures WfProc(s, p)
    ensures OfDirectory(s.tables, s.tables[s.procs[p].cr3][..USER_TABLES]) + multiset{s.procs[p].cr3}
            + OfQueue(s.procs[p].queue) + multiset{s.procs[p].thread} == multiset(Owned(s, p) - High(s, p))
  {
    hide OfDirectory, OfQueue, Exactly, Tiled, HeldAt, Owned, High;
    assert WfProc(s, p);
    var q := s.procs[p];
    var d, lo := s.tables[q.cr3], |s.log[p].received|;
    DirectoryExactly(s, p, USER_TABLES);
    assert q.queue[..|q.queue|] == q.queue;
    var h, D := OfDirectory(s.tables, d[..USER_TABLES]), Full(p, USER_TABLES);
    HeldRecords(s, p);
    NextPlace(s, h, D, Directory(p));
    QueueExactly(s, h + multiset{q.cr3}, D + iset{Directory(p)}, p, |q.queue|);
    NextPlace(s, h + multiset{q.cr3} + OfQueue(q.queue), D + iset{Directory(p)} + Slots(p, lo, |s.log[p].accepted|),
              ThreadPage(p));
    AllPlaces(s, h + multiset{q.cr3} + OfQueue(q.queue) + multiset{q.thread}, p);
  }

  // -------------------------------------------------------- the marked pages

  ghost function Marked(entries: seq<Pte>): multiset<Frame> {
    if entries == [] then multiset{}
    else
      var e := entries[|entries| - 1];
      Marked(entries[..|entries| - 1]) + if e.Page? && e.phy then multiset{e.frame} else multiset{}
  }

  lemma {:induction false} MarkedApart(entries: seq<Pte>)
    ensures OfEntries(entries, true) == OfEntries(entries, false) + Marked(entries)
  {
    if entries != [] {
      var n := |entries| - 1;
      MarkedApart(entries[..n]);
      var a, b, c := OfEntries(entries[..n], true), OfEntries(entries[..n], false), Marked(entries[..n]);
      var e := entries[n];
      if e.Page? {
        var x := multiset{e.frame};
        assert OfEntries(entries, true) == a + x;
        if e.phy {
          assert OfEntries(entries, false) == b && Marked(entries) == c + x;
        } else {
          assert OfEntries(entries, false) == b + x && Marked(entries) == c;
        }
        hide OfEntries, Marked;
        assert (b + c) + x == (b + x) + c == b + (c + x);
      }
    }
  }

  lemma {:induction false} MarkedNone(entries: seq<Pte>)
    ensures Marked(entries) == multiset{} <==> forall k :: 0 <= k < |entries| && entries[k].Page? ==> !entries[k].phy
  {
    if entries != [] {
      var n := |entries| - 1;
      MarkedNone(entries[..n]);
      if entries[n].Page? && entries[n].phy {
        assert entries[n].frame in Marked(entries);
      }
    }
  }

  ghost function MarkedIn(tables: map<Frame, seq<Pte>>, pde: Pte): multiset<Frame> {
    if pde.Page? && pde.frame in tables then Marked(tables[pde.frame]) else multiset{}
  }

  /** Nothing marked is mapped through table i. */
  ghost predicate Unmarked(s: Sys, p: Pid, i: nat)
    requires Wf(s)
  {
    forall v :: v / ENTRIES == i && Lookup(s, p, v).Page? ==> !Lookup(s, p, v).phy
  }

  lemma TableMarked(s: Sys, p: Pid, i: nat)
    requires Wf(s) && p in s.procs && i < USER_TABLES
    ensures OfTable(s.tables, DirEntry(s, p, i), true) ==
            OfTable(s.tables, DirEntry(s, p, i), false) + MarkedIn(s.tables, DirEntry(s, p, i))
    ensures MarkedIn(s.tables, DirEntry(s, p, i)) == multiset{} <==> Unmarked(s, p, i)
  {
    assert WfProc(s, p);
    if DirEntry(s, p, i).Page? {
      var entries := s.tables[DirEntry(s, p, i).frame];
      MarkedApart(entries);
      MarkedNone(entries);
      hide OfEntries, Marked;
      assert OfTable(s.tables, DirEntry(s, p, i), true)
             == OfEntries(entries, false) + multiset{DirEntry(s, p, i).frame} + Marked(entries);
      forall k | 0 <= k < ENTRIES
        ensures entries[k] == Lookup(s, p, i * ENTRIES + k) && (i * ENTRIES + k) / ENTRIES == i
      {
        PageParts(i, k);
      }
    }
  }

  /** The last two entries apart. */
  lemma StackApart(tables: map<Frame, seq<Pte>>, d: seq<Pte>)
    requires |d| == ENTRIES
    ensures OfDirectory(tables, d[..USER_TABLES]) ==
            OfDirectory(tables, NoStack(d)[..USER_TABLES]) + OfTable(tables, d[STACK_TOP_TABLE], false)
            + OfTable(tables, d[STACK_TOP_TABLE - 1], false)
  {
    hide OfDirectory, OfTable;
    var n, e := STACK_TOP_TABLE, NoStack(d);
    NextTable(tables, d, n);
    NextTable(tables, d, n - 1);
    NextTable(tables, e, n);
    NextTable(tables, e, n - 1);
    assert e[..n - 1] == d[..n - 1];
  }

  /** The pages marked PAGE_TYPE_PHY that are mapped in the stack window. */
  ghost function StackMarks(s: Sys, p: Pid): multiset<Frame>
    requires Wf(s) && p in s.procs
  {
    MarkedIn(s.tables, DirEntry(s, p, STACK_TOP_TABLE)) + MarkedIn(s.tables, DirEntry(s, p, STACK_TOP_TABLE - 1))
  }

  /** Disposal hands back what the process owns but for what it mapped at PAGE_OFFSET or
      above, where its loops do not look, and besides what is marked PAGE_TYPE_PHY in the
      stack window, where they do not look at the mark. So each page the process owns goes
      back once, and no other page, exactly when those two are the same; for an unmarked
      stack window that is when nothing is mapped so high, and the other way round. */
  lemma RecycledOnce(s: Sys, p: Pid)
    requires Wf(s) && Tiled(s) && p in s.procs && p in s.log && Logged(s, p)
    ensures Recycled(s, p) == multiset(Owned(s, p) - High(s, p)) + StackMarks(s, p)
    ensures Recycled(s, p) == multiset(Owned(s, p)) <==> StackMarks(s, p) == multiset(High(s, p))
    ensures LowOnly(s, p) ==> (Recycled(s, p) == multiset(Owned(s, p)) <==> CleanStack(s, p))
    ensures CleanStack(s, p) ==> (Recycled(s, p) == multiset(Owned(s, p)) <==> LowOnly(s, p))
  {
    hide Owned, High, OfTable, OfDirectory, OfQueue, MarkedIn, Tiled, Lookup, LowOnly, CleanStack;
    RecycledParts(s, p);
    HighNone(s, p);
    NoMarks(s, p);
    var own, high := Owned(s, p), High(s, p);
    assert multiset(own) == multiset(own - high) + multiset(high);
    assert |multiset(high)| == |high|;
    Cancel(multiset(own - high), StackMarks(s, p), multiset(high));
  }

  lemma Cancel(a: multiset<Frame>, m: multiset<Frame>, h: multiset<Frame>)
    ensures a + m == a + h <==> m == h
  {
    if a + m == a + h {
      forall f
        ensures m[f] == h[f]
      {
        assert (a + m)[f] == a[f] + m[f] && (a + h)[f] == a[f] + h[f];
      }
    }
  }

  lemma RecycledParts(s: Sys, p: Pid)
    requires Wf(s) && Tiled(s) && p in s.procs && p in s.log && Logged(s, p)
    ensures Recycled(s, p) == multiset(Owned(s, p) - High(s, p)) + StackMarks(s, p)
  {
    hide Tiled, KernelWf;
    CleanExactly(s, p);
    assert WfProc(s, p);
    var d := s.tables[s.procs[p].cr3];
    StackApart(s.tables, d);
    TableMarked(s, p, STACK_TOP_TABLE);
    TableMarked(s, p, STACK_TOP_TABLE - 1);
  }

  lemma NoMarks(s: Sys, p: Pid)
    requires Wf(s) && p in s.procs
    ensures StackMarks(s, p) == multiset{} <==> CleanStack(s, p)
  {
    TableMarked(s, p, STACK_TOP_TABLE);
    TableMarked(s, p, STACK_TOP_TABLE - 1);
    hide MarkedIn, Lookup;
    WindowTables(s, p);
    var a, b := MarkedIn(s.tables, DirEntry(s, p, STACK_TOP_TABLE)), MarkedIn(s.tables, DirEntry(s, p, STACK_TOP_TABLE - 1));
    assert |a + b| == |a| + |b|;
  }

  /** The stack window is two tables. */
  lemma WindowTables(s: Sys, p: Pid)
    requires Wf(s)
    ensures Unmarked(s, p, STACK_TOP_TABLE) && Unmarked(s, p, STACK_TOP_TABLE - 1) <==> CleanStack(s, p)
  {
    forall v: nat
      ensures STACK_LOW <= v < USER_PAGES <==> v / ENTRIES == STACK_TOP_TABLE || v / ENTRIES == STACK_TOP_TABLE - 1
    {
    }
  }

  // ------------------------------------------------- pages in and out of reach

  lemma {:induction false} MarkedHas(entries: seq<Pte>, k: nat)
    requires k < |entries| && entries[k].Page? && entries[k].phy
    ensures entries[k].frame in Marked(entries)
  {
    if k < |entries| - 1 { MarkedHas(entries[..|entries| - 1], k); }
  }

  /** A marked page of the stack window is among those handed back. */
  lemma MarkInStack(s: Sys, p: Pid, v: nat)
    requires Wf(s) && p in s.procs && STACK_LOW <= v < USER_PAGES && Lookup(s, p, v).Page? && Lookup(s, p, v).phy
    ensures Lookup(s, p, v).frame in StackMarks(s, p)
  {
    assert WfProc(s, p) && (v / ENTRIES == STACK_TOP_TABLE || v / ENTRIES == STACK_TOP_TABLE - 1);
    MarkedHas(s.tables[DirEntry(s, p, v / ENTRIES).frame], v % ENTRIES);
  }

  lemma {:induction false} SameDirectories(a: map<Frame, seq<Pte>>, b: map<Frame, seq<Pte>>, d: seq<Pte>)
    requires forall i :: 0 <= i < |d| ==> OfTable(a, d[i], false) == OfTable(b, d[i], false)
    ensures OfDirectory(a, d) == OfDirectory(b, d)
  {
    if d != [] { SameDirectories(a, b, d[..|d| - 1]); }
  }

  /** What goes back depends on the part of the address space below PAGE_OFFSET alone. */
  lemma RecycledKept(s: Sys, u: Sys, p: Pid)
    requires Wf(s) && Wf(u) && p in s.procs && p in u.procs
    requires u.procs[p].cr3 == s.procs[p].cr3 && u.procs[p].queue == s.procs[p].queue && u.procs[p].thread == s.procs[p].thread
    requires forall i: nat :: i < USER_TABLES ==> DirEntry(u, p, i) == DirEntry(s, p, i)
    requires forall w: nat :: w < USER_PAGES ==> Lookup(u, p, w) == Lookup(s, p, w)
    ensures Recycled(u, p) == Recycled(s, p) && StackMarks(u, p) == StackMarks(s, p)
  {
    hide Wf, DirEntry, Lookup, OfTable, OfDirectory, OfQueue, NoStack, MarkedIn;
    DirectoryKept(s, u, p);
    TableKept(s, u, p, STACK_TOP_TABLE);
    TableKept(s, u, p, STACK_TOP_TABLE - 1);
  }

  lemma TableKept(s: Sys, u: Sys, p: Pid, i: nat)
    requires Wf(s) && Wf(u) && p in s.procs && p in u.procs && u.procs[p].cr3 == s.procs[p].cr3 && i < USER_TABLES
    requires DirEntry(u, p, i) == DirEntry(s, p, i)
    requires forall w: nat :: w < USER_PAGES ==> Lookup(u, p, w) == Lookup(s, p, w)
    ensures WfProc(s, p) && WfProc(u, p) && s.tables[s.procs[p].cr3][i] == u.tables[u.procs[p].cr3][i] == DirEntry(s, p, i)
    ensures forall phyToo :: OfTable(u.tables, DirEntry(s, p, i), phyToo) == OfTable(s.tables, DirEntry(s, p, i), phyToo)
    ensures MarkedIn(u.tables, DirEntry(s, p, i)) == MarkedIn(s.tables, DirEntry(s, p, i))
  {
    hide OfEntries, Marked, KernelWf, Lookup;
    assert WfProc(s, p) && WfProc(u, p);
    if DirEntry(s, p, i).Page? { SameTable(s, u, p, i); }
  }

  lemma DirectoryKept(s: Sys, u: Sys, p: Pid)
    requires Wf(s) && Wf(u) && p in s.procs && p in u.procs && u.procs[p].cr3 == s.procs[p].cr3
    requires forall i: nat :: i < USER_TABLES ==> DirEntry(u, p, i) == DirEntry(s, p, i)
    requires forall w: nat :: w < USER_PAGES ==> Lookup(u, p, w) == Lookup(s, p, w)
    ensures WfProc(s, p) && WfProc(u, p)
    ensures OfDirectory(s.tables, NoStack(s.tables[s.procs[p].cr3])[..USER_TABLES])
            == OfDirectory(u.tables, NoStack(u.tables[u.procs[p].cr3])[..USER_TABLES])
  {
    hide Wf, DirEntry, Lookup, OfTable, OfDirectory;
    TableKept(s, u, p, 0);
    var d, e := s.tables[s.procs[p].cr3], u.tables[u.procs[p].cr3];
    forall i | 0 <= i < USER_TABLES
      ensures d[i] == e[i] && OfTable(s.tables, NoStack(d)[i], false) == OfTable(u.tables, NoStack(d)[i], false)
    {
      TableKept(s, u, p, i);
      NothingThere(s.tables, u.tables);
    }
    assert NoStack(d)[..USER_TABLES] == NoStack(e)[..USER_TABLES];
    SameDirectories(s.tables, u.tables, NoStack(d)[..USER_TABLES]);
  }

  lemma NothingThere(a: map<Frame, seq<Pte>>, b: map<Frame, seq<Pte>>)
    ensures OfTable(a, Absent, false) == OfTable(b, Absent, false)
  {
  }

  lemma SameTable(s: Sys, u: Sys, p: Pid, i: nat)
    requires Wf(s) && Wf(u) && i < USER_TABLES && DirEntry(s, p, i).Page? && DirEntry(u, p, i) == DirEntry(s, p, i)
    requires forall w: nat :: w < USER_PAGES ==> Lookup(u, p, w) == Lookup(s, p, w)
    ensures var t := DirEntry(s, p, i).frame; t in s.tables && t in u.tables && s.tables[t] == u.tables[t]
  {
    assert WfProc(s, p) && WfProc(u, p);
    var t := DirEntry(s, p, i).frame;
    forall k: nat | k < ENTRIES
      ensures s.tables[t][k] == u.tables[t][k]
    {
      PageParts(i, k);
      assert Lookup(u, p, i * ENTRIES + k) == Lookup(s, p, i * ENTRIES + k);
    }
  }

  /** A free page does not go back when a process ends, unless it is marked in the
      process's stack window. */
  lemma FreeNotRecycled(s: Sys, p: Pid, f: Frame)
    requires Wf(s) && Tiled(s) && p in s.procs && p in s.log && Logged(s, p) && f in s.free && f !in StackMarks(s, p)
    ensures f !in Recycled(s, p)
  {
    hide Recycled, StackMarks, High, Lookup, DirEntry;
    RecycledOnce(s, p);
    assert HeldAt(s, f, FreeList);
    assert f !in Owned(s, p);
  }
}
