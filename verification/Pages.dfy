// Physical pages and who holds them: page directories and tables, mapped pages,
// queued messages, thread pages (kernel/process/page.c, kernel/process/proc.c).
module Pages {
  type Frame = nat
  type Pid = nat

  /** A directory or table entry: 0, or a frame with the flag bits 0b11111 and
      possibly PAGE_TYPE_PHY. */
  datatype Pte = Absent | Page(frame: Frame, phy: bool)

  /** A message: the sender's word and the page that carries it. */
  datatype Msg = Msg(sender: int, frame: Frame)

  /** Entries of a directory or table, and those of a directory below PAGE_OFFSET. */
  const ENTRIES: nat := 1024
  const USER_TABLES: nat := 768
  const ALL_PAGES: nat := 1048576
  const USER_PAGES: nat := 786432
  const MAX_MESSAGES: nat := 256

  /** A process with its one thread. flag: 0 ready, 1 asleep, 2 running;
      threadFlag: 0 ready, 1 asleep, 2 receiving. cx is the page number of the
      receive address, ax the result register. */
  datatype Proc = Proc(cr3: Frame, thread: Frame, flag: nat, threadFlag: nat, receiving: nat, avl: nat,
                       ax: int, cx: nat, queue: seq<Msg>)

  /** Messages ever accepted for a process, and those it has received. */
  datatype Log = Log(accepted: seq<Msg>, received: seq<Msg>)

  /** tables holds the entries of every page directory and page table; kernel are the
      frames of the tables that map the kernel, which all processes share. */
  datatype Sys = Sys(procs: map<Pid, Proc>, tables: map<Frame, seq<Pte>>, free: set<Frame>,
                     current: Pid, log: map<Pid, Log>, managed: set<Frame>, kernel: set<Frame>)

  ghost predicate WfProc(s: Sys, p: Pid)
    requires p in s.procs
  {
    var d := s.procs[p].cr3;
    && p in s.log
    && d in s.tables && |s.tables[d]| == ENTRIES
    && (forall i :: 0 <= i < ENTRIES && s.tables[d][i].Page? ==> IsTable(s, s.tables[d][i].frame))
    && (forall i :: 0 <= i < USER_TABLES && s.tables[d][i].Page? ==> s.tables[d][i].frame !in s.kernel)
  }

  ghost predicate IsTable(s: Sys, t: Frame) { t in s.tables && |s.tables[t]| == ENTRIES }

  /** The kernel's tables are not among the pages handed out. What the kernel has in them
      counts as marked, and there may be empty entries. */
  ghost predicate KernelWf(s: Sys) {
    s.kernel !! s.managed && forall t :: t in s.kernel ==> IsTable(s, t)
  }

  ghost predicate Wf(s: Sys) {
    KernelWf(s) && forall p :: p in s.procs ==> WfProc(s, p)
  }

  lemma KernelStays(s: Sys, t: Sys)
    requires KernelWf(s) && t.kernel == s.kernel && t.managed == s.managed
    requires forall f :: f in s.kernel ==> f in s.tables && f in t.tables && |t.tables[f]| == |s.tables[f]|
    ensures KernelWf(t)
  {
  }

  lemma KernelTables(s: Sys)
    requires KernelWf(s)
    ensures s.kernel !! s.managed && forall f :: f in s.kernel ==> f in s.tables
  {
  }

  /** Directory entry i of process p. */
  ghost function DirEntry(s: Sys, p: Pid, i: nat): Pte {
    if Wf(s) && p in s.procs && i < ENTRIES then s.tables[s.procs[p].cr3][i] else Absent
  }

  /** Process p has a table of its own there. */
  ghost predicate HasTable(s: Sys, p: Pid, i: nat) {
    DirEntry(s, p, i).Page? && DirEntry(s, p, i).frame !in s.kernel
  }

  /** The entry that translates page number v of process p. */
  ghost function Lookup(s: Sys, p: Pid, v: nat): Pte {
    match DirEntry(s, p, v / ENTRIES)
    case Absent => Absent
    case Page(t, _) => s.tables[t][v % ENTRIES]
  }

  // ------------------------------------------------------------------ ownership

  /** The places a page can be. Slot(p, n) is the ring slot of the n-th message
      accepted for p. */
  datatype Place =
    | FreeList
    | Directory(p: Pid)
    | Table(p: Pid, i: nat)
    | Mapped(p: Pid, v: nat)
    | Slot(p: Pid, n: nat)
    | ThreadPage(p: Pid)

  ghost predicate HeldAt(s: Sys, f: Frame, a: Place)
    requires Wf(s)
  {
    match a
    case FreeList => f in s.free
    case Directory(p) => p in s.procs && s.procs[p].cr3 == f
    case Table(p, i) => HasTable(s, p, i) && DirEntry(s, p, i).frame == f
    case Mapped(p, v) => Lookup(s, p, v) == Page(f, false)
    case Slot(p, n) =>
      p in s.procs && InRing(s.log[p], n, f)
    case ThreadPage(p) => p in s.procs && s.procs[p].thread == f
  }

  /** Every managed page is in exactly one place; no other page is in any. */
  ghost predicate Tiled(s: Sys)
    requires Wf(s)
  {
    && (forall f :: f in s.managed ==> exists a :: HeldAt(s, f, a))
    && (forall f, a :: HeldAt(s, f, a) ==> f in s.managed)
    && (forall f, a, b :: HeldAt(s, f, a) && HeldAt(s, f, b) ==> a == b)
  }

  /** One page moves from one place to another and nothing else changes hands. */
  ghost predicate Moves(s: Sys, t: Sys, x: Frame, from: Place, to: Place)
    requires Wf(s) && Wf(t)
  {
    && HeldAt(s, x, from) && from != to && t.managed == s.managed
    && forall f, a :: HeldAt(t, f, a) <==> (f == x && a == to) || (HeldAt(s, f, a) && !(f == x && a == from))
  }

  lemma MovesTiled(s: Sys, t: Sys, x: Frame, from: Place, to: Place)
    requires Wf(s) && Wf(t) && Tiled(s) && Moves(s, t, x, from, to)
    ensures Tiled(t)
  {
    hide Wf, HeldAt;
    forall f | f in s.managed
      ensures exists a :: HeldAt(t, f, a)
    {
      if f == x {
        assert HeldAt(t, x, to);
      } else {
        var a :| HeldAt(s, f, a);
        assert HeldAt(t, f, a);
      }
    }
  }

  // -------------------------------------------------------- page-table updates

  /** `pte[va2pte(v)]=e`. */
  ghost function SetPte(s: Sys, p: Pid, v: nat, e: Pte): Sys
    requires Wf(s) && DirEntry(s, p, v / ENTRIES).Page?
  {
    var t := DirEntry(s, p, v / ENTRIES).frame;
    s.(tables := s.tables[t := s.tables[t][v % ENTRIES := e]])
  }

  function NoEntries(): (r: seq<Pte>)
    ensures |r| == ENTRIES
  {
    seq(ENTRIES, _ => Absent)
  }

  /** A fresh, zeroed table t becomes directory entry i. */
  ghost function WithTable(s: Sys, p: Pid, i: nat, t: Frame): Sys
    requires Wf(s) && p in s.procs && i < ENTRIES
  {
    var d := s.procs[p].cr3;
    s.(tables := s.tables[d := s.tables[d][i := Page(t, false)]][t := NoEntries()], free := s.free - {t})
  }

  /** Directories and tables are different frames, each with one owner. */
  lemma TablesDistinct(s: Sys, p: Pid, i: nat, q: Pid, j: nat)
    requires Wf(s) && Tiled(s) && HasTable(s, p, i) && q in s.procs
    ensures s.procs[q].cr3 != DirEntry(s, p, i).frame
    ensures DirEntry(s, q, j).Page? && DirEntry(s, q, j).frame == DirEntry(s, p, i).frame ==> p == q && i == j
    ensures DirEntry(s, p, i).frame !in s.free && s.procs[q].cr3 !in s.free
  {
    var f := DirEntry(s, p, i).frame;
    assert HeldAt(s, f, Table(p, i));
    assert HeldAt(s, s.procs[q].cr3, Directory(q));
    if HasTable(s, q, j) { assert HeldAt(s, DirEntry(s, q, j).frame, Table(q, j)); }
    assert HeldAt(s, f, FreeList) <==> f in s.free;
    assert HeldAt(s, s.procs[q].cr3, FreeList) <==> s.procs[q].cr3 in s.free;
  }

  predicate SameFrame(a: Pte, b: Pte) { a.Page? && b.Page? && a.frame == b.frame }

  /** Directories and tables do not share frames, nor do tables, but for the kernel's. */
  ghost predicate TablesApart(s: Sys)
    requires Wf(s)
  {
    && (forall p, i, q :: DirEntry(s, p, i).Page? && q in s.procs ==> s.procs[q].cr3 != DirEntry(s, p, i).frame)
    && (forall p, i, q, j :: HasTable(s, p, i) && SameFrame(DirEntry(s, p, i), DirEntry(s, q, j)) ==> p == q && i == j)
  }

  /** The kernel's tables are no directory and not free. */
  lemma KernelApart(s: Sys, f: Frame, q: Pid)
    requires Wf(s) && Tiled(s) && f in s.kernel
    ensures f !in s.free && (q in s.procs ==> s.procs[q].cr3 != f)
  {
    assert HeldAt(s, f, FreeList) <==> f in s.free;
    if q in s.procs { assert HeldAt(s, s.procs[q].cr3, Directory(q)); }
  }

  lemma Unused(s: Sys, f: Frame)
    requires Wf(s) && Tiled(s) && f in s.free
    ensures f in s.managed && f !in s.kernel
  {
    assert HeldAt(s, f, FreeList);
  }

  lemma TiledTablesApart(s: Sys)
    requires Wf(s) && Tiled(s)
    ensures TablesApart(s)
  {
    forall p, i: nat, q | DirEntry(s, p, i).Page? && q in s.procs
      ensures s.procs[q].cr3 != DirEntry(s, p, i).frame
    {
      if HasTable(s, p, i) { TablesDistinct(s, p, i, q, 0); } else { KernelApart(s, DirEntry(s, p, i).frame, q); }
    }
    forall p, i: nat, q, j: nat | HasTable(s, p, i) && SameFrame(DirEntry(s, p, i), DirEntry(s, q, j))
      ensures p == q && i == j
    {
      TablesDistinct(s, p, i, q, j);
    }
  }

  lemma SameDirectory(s: Sys, p: Pid, q: Pid)
    requires Wf(s) && Tiled(s) && p in s.procs && q in s.procs && s.procs[p].cr3 == s.procs[q].cr3
    ensures p == q
  {
    assert HeldAt(s, s.procs[p].cr3, Directory(p)) && HeldAt(s, s.procs[q].cr3, Directory(q));
  }

  /** No other directory entry leads to the table of directory entry i of process p. */
  ghost predicate Sole(s: Sys, p: Pid, i: nat) {
    forall q, j :: SameFrame(DirEntry(s, p, i), DirEntry(s, q, j)) ==> q == p && j == i
  }

  lemma OwnSole(s: Sys, p: Pid, i: nat)
    requires Wf(s) && TablesApart(s) && HasTable(s, p, i)
    ensures DirEntry(s, p, i).Page? && Sole(s, p, i)
  {
  }

  /** Writing one entry changes that translation for every directory entry that leads to
      its table, and no other. */
  lemma SetAnywhere(s: Sys, p: Pid, v: nat, e: Pte)
    requires Wf(s) && TablesApart(s) && DirEntry(s, p, v / ENTRIES).Page?
    ensures Wf(SetPte(s, p, v, e)) && TablesApart(SetPte(s, p, v, e))
    ensures forall q, i :: DirEntry(SetPte(s, p, v, e), q, i) == DirEntry(s, q, i)
    ensures forall q, w: nat :: Lookup(SetPte(s, p, v, e), q, w) ==
              if SameFrame(DirEntry(s, p, v / ENTRIES), DirEntry(s, q, w / ENTRIES)) && w % ENTRIES == v % ENTRIES then e
              else Lookup(s, q, w)
  {
    var t := SetPte(s, p, v, e);
    KernelStays(s, t);
    hide KernelWf;
    forall q | q in t.procs
      ensures WfProc(t, q)
    {
      assert WfProc(s, q);
    }
    forall q, i: nat
      ensures DirEntry(t, q, i) == DirEntry(s, q, i)
    {
    }
  }

  /** For a table of the process's own that is that one translation. */
  lemma LookupSet(s: Sys, p: Pid, v: nat, e: Pte)
    requires Wf(s) && TablesApart(s) && HasTable(s, p, v / ENTRIES)
    ensures Wf(SetPte(s, p, v, e)) && TablesApart(SetPte(s, p, v, e))
    ensures forall q, i :: DirEntry(SetPte(s, p, v, e), q, i) == DirEntry(s, q, i)
    ensures forall q, w :: Lookup(SetPte(s, p, v, e), q, w) == if q == p && w == v then e else Lookup(s, q, w)
  {
    OwnSole(s, p, v / ENTRIES);
    LookupSole(s, p, v, e);
  }

  /** And for any that no other entry leads to. */
  lemma LookupSole(s: Sys, p: Pid, v: nat, e: Pte)
    requires Wf(s) && TablesApart(s) && DirEntry(s, p, v / ENTRIES).Page? && Sole(s, p, v / ENTRIES)
    ensures Wf(SetPte(s, p, v, e)) && TablesApart(SetPte(s, p, v, e))
    ensures forall q, i :: DirEntry(SetPte(s, p, v, e), q, i) == DirEntry(s, q, i)
    ensures forall q, w :: Lookup(SetPte(s, p, v, e), q, w) == if q == p && w == v then e else Lookup(s, q, w)
  {
    hide Wf, DirEntry, TablesApart, Lookup;
    SetAnywhere(s, p, v, e);
    forall q, w: nat
      ensures Lookup(SetPte(s, p, v, e), q, w) == if q == p && w == v then e else Lookup(s, q, w)
    {
      if w / ENTRIES == v / ENTRIES { SamePage(v, w); }
    }
  }

  /** What is below PAGE_OFFSET is never written through a table that is shared. */
  lemma SetLow(s: Sys, p: Pid, v: nat, q: Pid, w: nat)
    requires Wf(s) && TablesApart(s) && DirEntry(s, p, v / ENTRIES).Page? && w < USER_PAGES
    requires SameFrame(DirEntry(s, p, v / ENTRIES), DirEntry(s, q, w / ENTRIES)) && w % ENTRIES == v % ENTRIES
    ensures q == p && w == v
  {
    assert WfProc(s, q) && HasTable(s, q, w / ENTRIES);
    if w / ENTRIES == v / ENTRIES { SamePage(v, w); }
  }

  lemma SamePage(v: nat, w: nat)
    requires v / ENTRIES == w / ENTRIES
    ensures v % ENTRIES == w % ENTRIES <==> v == w
  {
  }

  /** A fresh table translates nothing new; its page goes from the free list to the
      process. */
  lemma TableAdded(s: Sys, p: Pid, i: nat, t: Frame)
    requires Wf(s) && Tiled(s) && p in s.procs && i < ENTRIES
    requires DirEntry(s, p, i) == Absent && t in s.free
    ensures Wf(WithTable(s, p, i, t)) && Tiled(WithTable(s, p, i, t))
    ensures forall q, j :: DirEntry(WithTable(s, p, i, t), q, j) == if q == p && j == i then Page(t, false) else DirEntry(s, q, j)
    ensures forall q, w :: Lookup(WithTable(s, p, i, t), q, w) == Lookup(s, q, w)
  {
    hide KernelWf;
    KernelTables(s);
    var u := WithTable(s, p, i, t);
    var d := s.procs[p].cr3;
    assert HeldAt(s, t, FreeList) && HeldAt(s, d, Directory(p));
    KernelStays(s, u);
    forall q | q in u.procs
      ensures WfProc(u, q)
    {
      TableAddedFor(s, p, i, t, q);
    }
    forall q, j: nat
      ensures DirEntry(u, q, j) == if q == p && j == i then Page(t, false) else DirEntry(s, q, j)
    {
      if q in s.procs {
        assert HeldAt(s, s.procs[q].cr3, Directory(q));
      }
    }
    forall q, w: nat
      ensures Lookup(u, q, w) == Lookup(s, q, w)
    {
      if DirEntry(s, q, w / ENTRIES).Page? { EntryElsewhere(s, q, w / ENTRIES, p, t); }
    }
    forall f, a
      ensures HeldAt(u, f, a) <==> if f == t then a == Table(p, i) else HeldAt(s, f, a)
    {
      if HeldAt(s, t, a) { assert a == FreeList; }
    }
    MovesTiled(s, u, t, FreeList, Table(p, i));
  }

  /** A table in use is no directory and not free. */
  lemma EntryElsewhere(s: Sys, q: Pid, j: nat, p: Pid, t: Frame)
    requires Wf(s) && Tiled(s) && DirEntry(s, q, j).Page? && p in s.procs && t in s.free
    ensures DirEntry(s, q, j).frame != s.procs[p].cr3 && DirEntry(s, q, j).frame != t
  {
    if HasTable(s, q, j) { TablesDistinct(s, q, j, p, 0); } else { KernelApart(s, DirEntry(s, q, j).frame, p); }
  }

  lemma TableAddedFor(s: Sys, p: Pid, i: nat, t: Frame, q: Pid)
    requires Wf(s) && Tiled(s) && p in s.procs && i < ENTRIES && q in s.procs
    requires DirEntry(s, p, i) == Absent && t in s.free
    ensures WfProc(WithTable(s, p, i, t), q)
  {
    var u := WithTable(s, p, i, t);
    var d := s.procs[p].cr3;
    assert WfProc(s, q) && WfProc(s, p);
    assert HeldAt(s, t, FreeList) && HeldAt(s, d, Directory(p)) && HeldAt(s, s.procs[q].cr3, Directory(q));
    forall j | 0 <= j < ENTRIES && u.tables[s.procs[q].cr3][j].Page?
      ensures IsTable(u, u.tables[s.procs[q].cr3][j].frame)
      ensures j < USER_TABLES ==> u.tables[s.procs[q].cr3][j].frame !in u.kernel
    {
      if DirEntry(s, q, j).Page? { EntryElsewhere(s, q, j, p, t); }
    }
  }

  // ------------------------------------------------------------ page movements

  /** What SetPte changes, for a state that otherwise differs in more than tables. */
  lemma Remapped(s: Sys, p: Pid, v: nat, e: Pte, t: Sys)
    requires Wf(s) && TablesApart(s) && HasTable(s, p, v / ENTRIES)
    requires t.tables == SetPte(s, p, v, e).tables && SameSpaces(s, t)
    ensures Wf(t) && TablesApart(t)
    ensures forall q, i :: DirEntry(t, q, i) == DirEntry(s, q, i)
    ensures forall q, w :: Lookup(t, q, w) == if q == p && w == v then e else Lookup(s, q, w)
  {
    LookupSet(s, p, v, e);
    Unmapped(SetPte(s, p, v, e), t);
  }

  ghost predicate SameSpaces(s: Sys, t: Sys) {
    t.procs.Keys == s.procs.Keys && t.log.Keys == s.log.Keys && t.managed == s.managed && t.kernel == s.kernel
    && forall q :: q in s.procs ==> t.procs[q].cr3 == s.procs[q].cr3
  }

  /** Address translation depends on the tables and directory frames alone. */
  lemma Unmapped(s: Sys, t: Sys)
    requires Wf(s) && t.tables == s.tables && SameSpaces(s, t)
    ensures Wf(t) && (TablesApart(s) ==> TablesApart(t))
    ensures forall q, i :: DirEntry(t, q, i) == DirEntry(s, q, i)
    ensures forall q, w :: Lookup(t, q, w) == Lookup(s, q, w)
  {
    forall q | q in t.procs
      ensures WfProc(t, q)
    {
      assert WfProc(s, q);
    }
    forall q, i: nat
      ensures DirEntry(t, q, i) == DirEntry(s, q, i)
    {
    }
    forall q, w: nat
      ensures Lookup(t, q, w) == Lookup(s, q, w)
    {
    }
  }

  /** A page off the free list into an empty entry. */
  ghost function MapFree(s: Sys, p: Pid, v: nat, f: Frame): Sys
    requires Wf(s) && DirEntry(s, p, v / ENTRIES).Page?
  {
    SetPte(s, p, v, Page(f, false)).(free := s.free - {f})
  }

  lemma MapFreeKeeps(s: Sys, p: Pid, v: nat, f: Frame)
    requires Wf(s) && Tiled(s) && HasTable(s, p, v / ENTRIES) && Lookup(s, p, v) == Absent && f in s.free
    ensures DirEntry(s, p, v / ENTRIES).Page?
    ensures var t := MapFree(s, p, v, f);
            && Wf(t) && Tiled(t)
            && (forall q, w :: Lookup(t, q, w) == if q == p && w == v then Page(f, false) else Lookup(s, q, w))
            && (forall q, i :: DirEntry(t, q, i) == DirEntry(s, q, i))
  {
    hide Lookup, DirEntry, Wf;
    TiledTablesApart(s);
    OwnSole(s, p, v / ENTRIES);
    MapSoleKeeps(s, p, v, f);
  }

  lemma MapSoleKeeps(s: Sys, p: Pid, v: nat, f: Frame)
    requires Wf(s) && Tiled(s) && DirEntry(s, p, v / ENTRIES).Page? && Sole(s, p, v / ENTRIES)
    requires Lookup(s, p, v) == Absent && f in s.free
    ensures var t := MapFree(s, p, v, f);
            && Wf(t) && Tiled(t)
            && (forall q, w :: Lookup(t, q, w) == if q == p && w == v then Page(f, false) else Lookup(s, q, w))
            && (forall q, i :: DirEntry(t, q, i) == DirEntry(s, q, i))
  {
    hide Lookup, DirEntry, Wf, Sole;
    var t := MapFree(s, p, v, f);
    TiledTablesApart(s);
    LookupSole(s, p, v, Page(f, false));
    Unmapped(SetPte(s, p, v, Page(f, false)), t);
    forall g, a
      ensures HeldAt(t, g, a) <==> (g == f && a == Mapped(p, v)) || (HeldAt(s, g, a) && !(g == f && a == FreeList))
    {
    }
    MovesTiled(s, t, f, FreeList, Mapped(p, v));
  }

  /** Through a table that other directory entries lead to, the page is in more than one
      place. */
  lemma MapShared(s: Sys, p: Pid, v: nat, f: Frame)
    requires Wf(s) && TablesApart(s) && DirEntry(s, p, v / ENTRIES).Page?
    ensures var t := MapFree(s, p, v, f);
            && Wf(t) && (forall q, i :: DirEntry(t, q, i) == DirEntry(s, q, i))
            && (forall q, w: nat :: Lookup(t, q, w) ==
                  if SameFrame(DirEntry(s, p, v / ENTRIES), DirEntry(s, q, w / ENTRIES)) && w % ENTRIES == v % ENTRIES
                  then Page(f, false) else Lookup(s, q, w))
            && (!Sole(s, p, v / ENTRIES) ==> !Tiled(t))
  {
    hide Lookup, DirEntry, Wf;
    var t := MapFree(s, p, v, f);
    SetAnywhere(s, p, v, Page(f, false));
    Unmapped(SetPte(s, p, v, Page(f, false)), t);
    if !Sole(s, p, v / ENTRIES) {
      var q, j: nat :| SameFrame(DirEntry(s, p, v / ENTRIES), DirEntry(s, q, j)) && !(q == p && j == v / ENTRIES);
      var w := j * ENTRIES + v % ENTRIES;
      PageParts(j, v % ENTRIES);
      assert HeldAt(t, f, Mapped(p, v)) && HeldAt(t, f, Mapped(q, w));
    }
  }

  lemma PageParts(i: nat, j: nat)
    requires j < ENTRIES
    ensures (i * ENTRIES + j) / ENTRIES == i && (i * ENTRIES + j) % ENTRIES == j
    ensures forall v :: v / ENTRIES == i && v % ENTRIES == j ==> v == i * ENTRIES + j
  {
  }

  /** A mapped page back to the free list: recyclePhysicalPage and a zero entry. */
  ghost function UnmapFree(s: Sys, p: Pid, v: nat): Sys
    requires Wf(s) && v < USER_PAGES && Lookup(s, p, v).Page? && !Lookup(s, p, v).phy
  {
    LookupDir(s, p, v);
    SetPte(s, p, v, Absent).(free := s.free + {Lookup(s, p, v).frame})
  }

  lemma UnmapFreeKeeps(s: Sys, p: Pid, v: nat)
    requires Wf(s) && Tiled(s) && v < USER_PAGES && Lookup(s, p, v).Page? && !Lookup(s, p, v).phy
    ensures var t := UnmapFree(s, p, v);
            && Wf(t) && Tiled(t)
            && (forall q, w :: Lookup(t, q, w) == if q == p && w == v then Absent else Lookup(s, q, w))
            && (forall q, i :: DirEntry(t, q, i) == DirEntry(s, q, i))
  {
    var t := UnmapFree(s, p, v);
    var f := Lookup(s, p, v).frame;
    hide Lookup, DirEntry, Wf;
    TiledTablesApart(s);
    LookupDir(s, p, v);
    Remapped(s, p, v, Absent, t);
    forall g, a
      ensures HeldAt(t, g, a) <==> (g == f && a == FreeList) || (HeldAt(s, g, a) && !(g == f && a == Mapped(p, v)))
    {
    }
    MovesTiled(s, t, f, Mapped(p, v), FreeList);
  }

  lemma LookupDir(s: Sys, p: Pid, v: nat)
    requires Wf(s) && Lookup(s, p, v).Page?
    ensures DirEntry(s, p, v / ENTRIES).Page? && p in s.procs
    ensures v < USER_PAGES ==> HasTable(s, p, v / ENTRIES)
  {
  }

  /** A mapped page into an empty entry, possibly of another process. */
  ghost function Carry(s: Sys, p: Pid, v: nat, q: Pid, w: nat): Sys
    requires Wf(s) && Tiled(s) && v < USER_PAGES && Lookup(s, p, v).Page? && !Lookup(s, p, v).phy && HasTable(s, q, w / ENTRIES)
  {
    LookupDir(s, p, v);
    TiledTablesApart(s);
    LookupSet(s, p, v, Absent);
    SetPte(SetPte(s, p, v, Absent), q, w, Lookup(s, p, v))
  }

  lemma CarryKeeps(s: Sys, p: Pid, v: nat, q: Pid, w: nat)
    requires Wf(s) && Tiled(s) && v < USER_PAGES && Lookup(s, p, v).Page? && !Lookup(s, p, v).phy
    requires HasTable(s, q, w / ENTRIES) && Lookup(s, q, w) == Absent
    ensures var t := Carry(s, p, v, q, w);
            && Wf(t) && Tiled(t)
            && (forall r, x :: Lookup(t, r, x) ==
                  if r == p && x == v then Absent else if r == q && x == w then Lookup(s, p, v) else Lookup(s, r, x))
            && (forall r, i :: DirEntry(t, r, i) == DirEntry(s, r, i))
  {
    hide WfProc;
    var f, e := Lookup(s, p, v).frame, Lookup(s, p, v);
    LookupDir(s, p, v);
    TiledTablesApart(s);
    LookupSet(s, p, v, Absent);
    var u := SetPte(s, p, v, Absent);
    LookupSet(u, q, w, e);
    var t := Carry(s, p, v, q, w);
    hide Lookup, DirEntry, Wf;
    forall g, a
      ensures HeldAt(t, g, a) <==> (g == f && a == Mapped(q, w)) || (HeldAt(s, g, a) && !(g == f && a == Mapped(p, v)))
    {
    }
    MovesTiled(s, t, f, Mapped(p, v), Mapped(q, w));
  }

  /** The log as the ring sees it: what was accepted is what was received and then
      what is queued. */
  ghost predicate Logged(s: Sys, p: Pid)
    requires p in s.procs && p in s.log
  {
    s.log[p].accepted == s.log[p].received + s.procs[p].queue
  }

  /** A message of process q's joins the ring. */
  ghost function Enqueue(s: Sys, q: Pid, m: Msg): Sys
    requires q in s.procs && q in s.log
  {
    s.(procs := s.procs[q := s.procs[q].(queue := s.procs[q].queue + [m])],
       log := s.log[q := s.log[q].(accepted := s.log[q].accepted + [m])])
  }

  lemma LogThere(s: Sys, q: Pid)
    requires Wf(s) && q in s.procs
    ensures WfProc(s, q) && q in s.log
  {
  }

  lemma Queued(l: Log, m: Msg)
    requires |l.received| <= |l.accepted|
    ensures forall n, f :: InRing(l.(accepted := l.accepted + [m]), n, f) <==>
              InRing(l, n, f) || (n == |l.accepted| && f == m.frame)
  {
  }

  lemma Dequeued(l: Log, m: Msg)
    requires |l.received| < |l.accepted| && l.accepted[|l.received|] == m
    ensures InRing(l, |l.received|, m.frame)
    ensures forall n, f :: InRing(l.(received := l.received + [m]), n, f) <==> InRing(l, n, f) && n != |l.received|
    ensures forall f :: InRing(l, |l.received|, f) <==> f == m.frame
  {
  }

  /** A mapped page into the ring of q. */
  ghost function Post(s: Sys, p: Pid, v: nat, q: Pid, sender: int): Sys
    requires Wf(s) && v < USER_PAGES && Lookup(s, p, v).Page? && !Lookup(s, p, v).phy && q in s.procs
  {
    LookupDir(s, p, v);
    Enqueue(SetPte(s, p, v, Absent), q, Msg(sender, Lookup(s, p, v).frame))
  }

  lemma PostKeeps(s: Sys, p: Pid, v: nat, q: Pid, sender: int)
    requires Wf(s) && Tiled(s) && v < USER_PAGES && Lookup(s, p, v).Page? && !Lookup(s, p, v).phy
    requires q in s.procs && Logged(s, q)
    ensures var t := Post(s, p, v, q, sender);
            && Wf(t) && Tiled(t)
            && (forall r, x :: Lookup(t, r, x) == if r == p && x == v then Absent else Lookup(s, r, x))
            && (forall r, i :: DirEntry(t, r, i) == DirEntry(s, r, i))
  {
    hide Lookup, DirEntry, Wf, InRing, WfProc;
    LogThere(s, q);
    var t, f, n := Post(s, p, v, q, sender), Lookup(s, p, v).frame, |s.log[q].accepted|;
    TiledTablesApart(s);
    LookupDir(s, p, v);
    Queued(s.log[q], Msg(sender, f));
    Remapped(s, p, v, Absent, t);
    forall g, a
      ensures HeldAt(t, g, a) <==> (g == f && a == Slot(q, n)) || (HeldAt(s, g, a) && !(g == f && a == Mapped(p, v)))
    {
    }
    MovesTiled(s, t, f, Mapped(p, v), Slot(q, n));
  }

  lemma PostFreshKeeps(s: Sys, q: Pid, m: Msg)
    requires Wf(s) && Tiled(s) && m.frame in s.free && q in s.procs && Logged(s, q)
    ensures var t := Enqueue(s, q, m).(free := s.free - {m.frame});
            && Wf(t) && Tiled(t)
            && (forall r, x :: Lookup(t, r, x) == Lookup(s, r, x))
            && (forall r, i :: DirEntry(t, r, i) == DirEntry(s, r, i))
  {
    hide Lookup, DirEntry, Wf, WfProc, InRing;
    LogThere(s, q);
    var t, f, n := Enqueue(s, q, m).(free := s.free - {m.frame}), m.frame, |s.log[q].accepted|;
    Queued(s.log[q], m);
    Unmapped(s, t);
    forall g, a
      ensures HeldAt(t, g, a) <==> (g == f && a == Slot(q, n)) || (HeldAt(s, g, a) && !(g == f && a == FreeList))
    {
    }
    MovesTiled(s, t, f, FreeList, Slot(q, n));
  }

  /** The oldest message of the ring into an empty entry of its process. */
  ghost function Fetch(s: Sys, q: Pid, w: nat): Sys
    requires Wf(s) && q in s.procs && s.procs[q].queue != [] && HasTable(s, q, w / ENTRIES)
  {
    var m := s.procs[q].queue[0];
    SetPte(s, q, w, Page(m.frame, false)).(
      procs := s.procs[q := s.procs[q].(queue := s.procs[q].queue[1..])],
      log := s.log[q := s.log[q].(received := s.log[q].received + [m])])
  }

  lemma FetchKeeps(s: Sys, q: Pid, w: nat)
    requires Wf(s) && Tiled(s) && q in s.procs && Logged(s, q)
    requires s.procs[q].queue != [] && HasTable(s, q, w / ENTRIES) && Lookup(s, q, w) == Absent
    ensures var t := Fetch(s, q, w);
            && Wf(t) && Tiled(t)
            && (forall r, x :: Lookup(t, r, x) ==
                  if r == q && x == w then Page(s.procs[q].queue[0].frame, false) else Lookup(s, r, x))
            && (forall r, i :: DirEntry(t, r, i) == DirEntry(s, r, i))
  {
    hide Lookup, DirEntry, Wf, InRing, WfProc;
    LogThere(s, q);
    var t, m, n := Fetch(s, q, w), s.procs[q].queue[0], |s.log[q].received|;
    TiledTablesApart(s);
    assert s.log[q].accepted[n] == m;
    Dequeued(s.log[q], m);
    Remapped(s, q, w, Page(m.frame, false), t);
    forall g, a
      ensures HeldAt(t, g, a) <==> (g == m.frame && a == Mapped(q, w)) || (HeldAt(s, g, a) && !(g == m.frame && a == Slot(q, n)))
    {
    }
    MovesTiled(s, t, m.frame, Slot(q, n), Mapped(q, w));
  }

  // -------------------------------------------------------- tables on demand

  /** The first half of open_physical_page: the table, made if it is missing. */
  ghost function EnsureTable(s: Sys, p: Pid, v: nat, t: Frame): Sys
    requires Wf(s) && p in s.procs && v < ALL_PAGES
  {
    if DirEntry(s, p, v / ENTRIES) == Absent then WithTable(s, p, v / ENTRIES, t) else s
  }

  /** The page a missing table would be put in is free. */
  ghost predicate TableReady(s: Sys, p: Pid, v: nat, t: Frame) {
    DirEntry(s, p, v / ENTRIES) == Absent ==> t in s.free
  }

  lemma EnsureKeeps(s: Sys, p: Pid, v: nat, t: Frame)
    requires Wf(s) && Tiled(s) && p in s.procs && v < ALL_PAGES && TableReady(s, p, v, t)
    ensures var u := EnsureTable(s, p, v, t);
            && Wf(u) && Tiled(u) && DirEntry(u, p, v / ENTRIES).Page?
            && (v < USER_PAGES ==> HasTable(u, p, v / ENTRIES))
            && (Sole(s, p, v / ENTRIES) ==> Sole(u, p, v / ENTRIES))
            && (forall q, w :: Lookup(u, q, w) == Lookup(s, q, w))
            && u == s.(tables := u.tables, free := u.free)
            && s.free - {t} <= u.free <= s.free
  {
    if DirEntry(s, p, v / ENTRIES) == Absent {
      TableAdded(s, p, v / ENTRIES, t);
      MadeSole(s, p, v / ENTRIES, t);
    }
  }

  lemma MadeSole(s: Sys, p: Pid, i: nat, t: Frame)
    requires Wf(s) && Tiled(s) && p in s.procs && i < ENTRIES && DirEntry(s, p, i) == Absent && t in s.free
    requires Wf(WithTable(s, p, i, t)) && Tiled(WithTable(s, p, i, t)) && DirEntry(WithTable(s, p, i, t), p, i) == Page(t, false)
    ensures HasTable(WithTable(s, p, i, t), p, i) && Sole(WithTable(s, p, i, t), p, i)
  {
    hide DirEntry, Wf, Tiled, HeldAt;
    Unused(s, t);
    TiledTablesApart(WithTable(s, p, i, t));
    OwnSole(WithTable(s, p, i, t), p, i);
  }

  /** Physical memory opened in an empty entry, of whatever table: no page changes
      hands. */
  lemma OpenPhysicalKeeps(s: Sys, p: Pid, v: nat, f: Frame)
    requires Wf(s) && Tiled(s) && DirEntry(s, p, v / ENTRIES).Page? && Lookup(s, p, v) == Absent
    ensures var t := SetPte(s, p, v, Page(f, true));
            && Wf(t) && Tiled(t) && Lookup(t, p, v) == Page(f, true)
            && (forall q, w: nat :: w < USER_PAGES && !(q == p && w == v) ==> Lookup(t, q, w) == Lookup(s, q, w))
            && (forall q, i :: DirEntry(t, q, i) == DirEntry(s, q, i))
  {
    hide Lookup, DirEntry, Wf;
    var t := SetPte(s, p, v, Page(f, true));
    TiledTablesApart(s);
    SetAnywhere(s, p, v, Page(f, true));
    forall q, w: nat
      ensures Lookup(t, q, w) == Lookup(s, q, w) || (Lookup(s, q, w) == Absent && Lookup(t, q, w) == Page(f, true))
      ensures w < USER_PAGES && !(q == p && w == v) ==> Lookup(t, q, w) == Lookup(s, q, w)
    {
      OneTable(s, p, v, q, w);
    }
    forall g, a
      ensures HeldAt(t, g, a) <==> HeldAt(s, g, a)
    {
    }
    SameTiled(s, t);
  }

  /** The same entry of the same table. */
  lemma OneTable(s: Sys, p: Pid, v: nat, q: Pid, w: nat)
    requires Wf(s) && TablesApart(s) && DirEntry(s, p, v / ENTRIES).Page?
    ensures SameFrame(DirEntry(s, p, v / ENTRIES), DirEntry(s, q, w / ENTRIES)) && w % ENTRIES == v % ENTRIES ==>
              Lookup(s, q, w) == Lookup(s, p, v) && (w < USER_PAGES ==> q == p && w == v)
  {
    if SameFrame(DirEntry(s, p, v / ENTRIES), DirEntry(s, q, w / ENTRIES)) && w % ENTRIES == v % ENTRIES && w < USER_PAGES {
      SetLow(s, p, v, q, w);
    }
  }

  lemma SameTiled(s: Sys, t: Sys)
    requires Wf(s) && Wf(t) && Tiled(s) && t.managed == s.managed
    requires forall f, a :: HeldAt(t, f, a) <==> HeldAt(s, f, a)
    ensures Tiled(t)
  {
    hide HeldAt, Wf;
    forall f | f in t.managed
      ensures exists a :: HeldAt(t, f, a)
    {
      var a :| HeldAt(s, f, a);
      assert HeldAt(t, f, a);
    }
  }

  /** Registers, flags and the current process do not bear on pages. */
  lemma RegistersKeep(s: Sys, t: Sys)
    requires Wf(s) && Tiled(s) && t.tables == s.tables && t.free == s.free && t.managed == s.managed
    requires SameSpaces(s, t) && SameHoldings(s, t)
    ensures Wf(t) && Tiled(t)
    ensures forall q, w :: Lookup(t, q, w) == Lookup(s, q, w)
    ensures forall q, i :: DirEntry(t, q, i) == DirEntry(s, q, i)
  {
    Unmapped(s, t);
    forall f, a
      ensures HeldAt(t, f, a) <==> HeldAt(s, f, a)
    {
    }
    SameTiled(s, t);
  }

  /** The same thread pages and the same pages in every ring. */
  ghost predicate SameHoldings(s: Sys, t: Sys)
    requires Wf(s) && SameSpaces(s, t)
  {
    forall q :: q in s.procs ==>
      t.procs[q].thread == s.procs[q].thread && SameRing(s.log[q], t.log[q])
  }

  ghost predicate SameRing(l: Log, m: Log) {
    forall n, f :: InRing(l, n, f) <==> InRing(m, n, f)
  }

  ghost predicate InRing(l: Log, n: nat, f: Frame) {
    |l.received| <= n < |l.accepted| && l.accepted[n].frame == f
  }

  // ------------------------------------------------------ creation and disposal

  function NoTables(): (r: seq<Pte>)
    ensures |r| == USER_TABLES
  {
    seq(USER_TABLES, _ => Absent)
  }

  /** The entries of a directory from PAGE_OFFSET on. */
  type Upper = u: seq<Pte> | |u| == ENTRIES - USER_TABLES witness seq(ENTRIES - USER_TABLES, _ => Absent)

  /** There is nothing in it but the kernel's tables, and in these no page of a
      process's. */
  ghost predicate KernelOnly(s: Sys, upper: Upper) {
    forall i :: 0 <= i < |upper| && upper[i].Page? ==> upper[i].frame in s.kernel && NoneOwned(s, upper[i].frame)
  }

  ghost predicate NoneOwned(s: Sys, t: Frame) {
    IsTable(s, t) && forall k :: 0 <= k < ENTRIES && s.tables[t][k].Page? ==> s.tables[t][k].phy
  }

  ghost predicate TablesThere(s: Sys, upper: Upper) {
    forall i :: 0 <= i < |upper| && upper[i].Page? ==> IsTable(s, upper[i].frame)
  }

  /** Process p has nothing of its own at PAGE_OFFSET or above: no table, and no page in
      the kernel's tables. */
  ghost predicate LowOnly(s: Sys, p: Pid) {
    && (forall i: nat :: i >= USER_TABLES ==> !HasTable(s, p, i))
    && (forall v: nat :: v >= USER_PAGES && Lookup(s, p, v).Page? ==> Lookup(s, p, v).phy)
  }

  ghost function UpperOf(s: Sys, p: Pid): Upper
    requires Wf(s) && p in s.procs
  {
    assert WfProc(s, p);
    s.tables[s.procs[p].cr3][USER_TABLES..]
  }

  lemma UpperFacts(s: Sys, p: Pid)
    requires Wf(s) && p in s.procs
    ensures TablesThere(s, UpperOf(s, p)) && (KernelOnly(s, UpperOf(s, p)) <==> LowOnly(s, p))
  {
    assert WfProc(s, p);
    var upper := UpperOf(s, p);
    forall i | 0 <= i < |upper|
      ensures upper[i] == DirEntry(s, p, i + USER_TABLES)
    {
    }
    if KernelOnly(s, upper) {
      forall i: nat | i >= USER_TABLES && DirEntry(s, p, i).Page?
        ensures !HasTable(s, p, i) && NoneOwned(s, DirEntry(s, p, i).frame)
      {
        assert upper[i - USER_TABLES] == DirEntry(s, p, i);
      }
      assert LowOnly(s, p);
    }
    if LowOnly(s, p) {
      forall i | 0 <= i < |upper| && upper[i].Page?
        ensures upper[i].frame in s.kernel && NoneOwned(s, upper[i].frame)
      {
        UpperTable(s, p, i);
      }
    }
  }

  lemma UpperTable(s: Sys, p: Pid, i: nat)
    requires Wf(s) && p in s.procs && LowOnly(s, p) && i < ENTRIES - USER_TABLES && DirEntry(s, p, i + USER_TABLES).Page?
    ensures DirEntry(s, p, i + USER_TABLES).frame in s.kernel && NoneOwned(s, DirEntry(s, p, i + USER_TABLES).frame)
  {
    assert !HasTable(s, p, i + USER_TABLES);
    var t := DirEntry(s, p, i + USER_TABLES).frame;
    forall k: nat | k < ENTRIES && s.tables[t][k].Page?
      ensures s.tables[t][k].phy
    {
      PageParts(i + USER_TABLES, k);
      assert Lookup(s, p, (i + USER_TABLES) * ENTRIES + k) == s.tables[t][k];
    }
  }

  function NewProc(cr3: Frame, thread: Frame): Proc {
    Proc(cr3, thread, 0, 0, 0, 1, 0, 0, [])
  }

  /** createProcessPDE and the records of newProcess: an empty user half, and the upper
      half as the creator has it. */
  function AddProc(s: Sys, p: Pid, cr3: Frame, thread: Frame, upper: Upper): Sys {
    s.(procs := s.procs[p := NewProc(cr3, thread)], log := s.log[p := Log([], [])],
       tables := s.tables[cr3 := NoTables() + upper], free := s.free - {cr3, thread})
  }

  /** The new process shares the kernel's tables, and the creator's own ones too, if it has
      any at PAGE_OFFSET or above. */
  lemma AddProcWf(s: Sys, p: Pid, cr3: Frame, thread: Frame, upper: Upper)
    requires Wf(s) && Tiled(s) && p !in s.procs && cr3 in s.free && thread in s.free && cr3 != thread
    requires TablesThere(s, upper)
    ensures var t := AddProc(s, p, cr3, thread, upper);
            && Wf(t)
            && (forall q, i: nat :: DirEntry(t, q, i) ==
                  if q == p && USER_TABLES <= i < ENTRIES then upper[i - USER_TABLES] else DirEntry(s, q, i))
            && (forall q, w :: q != p ==> Lookup(t, q, w) == Lookup(s, q, w))
            && (forall w: nat :: w < USER_PAGES ==> Lookup(t, p, w) == Absent)
  {
    hide KernelWf;
    KernelTables(s);
    var t := AddProc(s, p, cr3, thread, upper);
    assert HeldAt(s, cr3, FreeList) && HeldAt(s, thread, FreeList);
    KernelStays(s, t);
    forall q | q in t.procs
      ensures WfProc(t, q)
    {
      if q != p { FreshElsewhere(s, q, cr3); }
    }
    forall q, i: nat
      ensures DirEntry(t, q, i) == if q == p && USER_TABLES <= i < ENTRIES then upper[i - USER_TABLES] else DirEntry(s, q, i)
    {
      if q in s.procs { FreshElsewhere(s, q, cr3); }
    }
    forall q, w: nat | q != p
      ensures Lookup(t, q, w) == Lookup(s, q, w)
    {
      if q in s.procs { FreshElsewhere(s, q, cr3); }
    }
  }

  /** It owns no table yet, nor anything mapped. */
  lemma NothingOwn(s: Sys, p: Pid, cr3: Frame, thread: Frame, upper: Upper)
    requires Wf(s) && p !in s.procs && KernelOnly(s, upper) && cr3 !in s.kernel
    requires var t := AddProc(s, p, cr3, thread, upper);
             && Wf(t)
             && forall i: nat :: DirEntry(t, p, i) ==
                  if USER_TABLES <= i < ENTRIES then upper[i - USER_TABLES] else DirEntry(s, p, i)
    ensures var t := AddProc(s, p, cr3, thread, upper);
            && (forall i: nat :: !HasTable(t, p, i) && !HasTable(s, p, i))
            && (forall w: nat :: (Lookup(t, p, w).Page? ==> Lookup(t, p, w).phy) && Lookup(s, p, w) == Absent)
            && (forall n, f :: !InRing(t.log[p], n, f))
  {
    var t := AddProc(s, p, cr3, thread, upper);
    forall i: nat
      ensures !HasTable(t, p, i) && !HasTable(s, p, i)
    {
    }
  }

  lemma AddProcKeeps(s: Sys, p: Pid, cr3: Frame, thread: Frame, upper: Upper)
    requires Wf(s) && Tiled(s) && p !in s.procs && cr3 in s.free && thread in s.free && cr3 != thread
    requires TablesThere(s, upper) && KernelOnly(s, upper)
    ensures var t := AddProc(s, p, cr3, thread, upper);
            && Wf(t) && Tiled(t) && LowOnly(t, p)
            && (forall q, i: nat :: DirEntry(t, q, i) ==
                  if q == p && USER_TABLES <= i < ENTRIES then upper[i - USER_TABLES] else DirEntry(s, q, i))
            && (forall q, w :: q != p ==> Lookup(t, q, w) == Lookup(s, q, w))
            && (forall w: nat :: w < USER_PAGES ==> Lookup(t, p, w) == Absent)
  {
    hide Lookup, DirEntry, Wf, InRing, TablesThere, KernelOnly;
    var t := AddProc(s, p, cr3, thread, upper);
    AddProcWf(s, p, cr3, thread, upper);
    Unused(s, cr3);
    NothingOwn(s, p, cr3, thread, upper);
    forall f, a
      ensures HeldAt(t, f, a) <==>
        (f == cr3 && a == Directory(p)) || (f == thread && a == ThreadPage(p))
        || (HeldAt(s, f, a) && !(f in {cr3, thread} && a == FreeList))
    {
    }
    MovesTiled2(s, t, cr3, Directory(p), thread, ThreadPage(p));
  }

  /** A free frame is no process's directory or table. */
  lemma FreshElsewhere(s: Sys, q: Pid, f: Frame)
    requires Wf(s) && Tiled(s) && q in s.procs && f in s.free
    ensures WfProc(s, q) && s.procs[q].cr3 != f
    ensures forall i :: DirEntry(s, q, i).Page? ==> DirEntry(s, q, i).frame != f
    ensures forall i :: 0 <= i < ENTRIES ==> s.tables[s.procs[q].cr3][i] == DirEntry(s, q, i)
  {
    assert HeldAt(s, f, FreeList) && HeldAt(s, s.procs[q].cr3, Directory(q));
    forall i: nat | DirEntry(s, q, i).Page?
      ensures DirEntry(s, q, i).frame != f
    {
      EntryElsewhere(s, q, i, q, f);
    }
  }

  /** Two pages off the free list at once. */
  lemma MovesTiled2(s: Sys, t: Sys, x: Frame, a0: Place, y: Frame, b0: Place)
    requires Wf(s) && Wf(t) && Tiled(s) && t.managed == s.managed && x in s.free && y in s.free && x != y
    requires a0 != FreeList && b0 != FreeList
    requires forall f, a :: HeldAt(t, f, a) <==>
               (f == x && a == a0) || (f == y && a == b0) || (HeldAt(s, f, a) && !(f in {x, y} && a == FreeList))
    ensures Tiled(t)
  {
    assert HeldAt(s, x, FreeList) && HeldAt(s, y, FreeList);
    hide HeldAt, Wf;
    forall f | f in t.managed
      ensures exists a :: HeldAt(t, f, a)
    {
      if f == x {
        assert HeldAt(t, x, a0);
      } else if f == y {
        assert HeldAt(t, y, b0);
      } else {
        var a :| HeldAt(s, f, a);
        assert HeldAt(t, f, a);
      }
    }
  }

  ghost predicate OfProc(a: Place, p: Pid) {
    !a.FreeList? && a.p == p
  }

  ghost predicate HeldBy(s: Sys, f: Frame, p: Pid)
    requires Wf(s)
  {
    exists a :: OfProc(a, p) && HeldAt(s, f, a)
  }

  /** Everything a process holds: directory, tables, mapped and queued pages, its
      thread's page. */
  ghost function Owned(s: Sys, p: Pid): set<Frame>
    requires Wf(s)
  {
    set f | f in s.managed && HeldBy(s, f, p)
  }

  /** The directory entry that maps the top of the one thread's stack. */
  const STACK_TOP_TABLE: nat := 767

  /** The first page of the stack window of a process's one thread: directory
      entries 766 and 767. */
  const STACK_LOW: nat := 784384

  /** No physical memory is opened in the stack window of process p. */
  ghost predicate CleanStack(s: Sys, p: Pid)
    requires Wf(s)
  {
    forall v :: STACK_LOW <= v < USER_PAGES && Lookup(s, p, v).Page? ==> !Lookup(s, p, v).phy
  }

  /** The two stack tables struck out of a directory. */
  function NoStack(directory: seq<Pte>): seq<Pte>
    requires |directory| == ENTRIES
  {
    directory[STACK_TOP_TABLE - 1 := Absent][STACK_TOP_TABLE := Absent]
  }

  /** Everything back to the free list, the process gone from the table. The pages
      keep what is in them, but for two entries of the directory. */
  ghost function RemoveProc(s: Sys, p: Pid): Sys
    requires Wf(s) && p in s.procs
  {
    var d := s.procs[p].cr3;
    assert WfProc(s, p);
    s.(procs := s.procs - {p}, log := s.log - {p}, tables := s.tables[d := NoStack(s.tables[d])],
       free := s.free + Owned(s, p))
  }

  lemma RemovedSpaces(s: Sys, p: Pid)
    requires Wf(s) && Tiled(s) && p in s.procs
    ensures var t := RemoveProc(s, p);
            && Wf(t)
            && (forall q, i :: DirEntry(t, q, i) == if q == p then Absent else DirEntry(s, q, i))
            && (forall q, w :: Lookup(t, q, w) == if q == p then Absent else Lookup(s, q, w))
  {
    hide KernelWf;
    KernelTables(s);
    var t := RemoveProc(s, p);
    assert HeldAt(s, s.procs[p].cr3, Directory(p));
    KernelStays(s, t);
    forall q | q in t.procs
      ensures WfProc(t, q) && t.tables[t.procs[q].cr3] == s.tables[s.procs[q].cr3]
    {
      RemovedFor(s, p, q);
    }
    forall q, i: nat
      ensures DirEntry(t, q, i) == if q == p then Absent else DirEntry(s, q, i)
    {
    }
    forall q, w: nat
      ensures Lookup(t, q, w) == if q == p then Absent else Lookup(s, q, w)
    {
      if HasTable(s, q, w / ENTRIES) { TablesDistinct(s, q, w / ENTRIES, p, 0); }
      else if DirEntry(s, q, w / ENTRIES).Page? { KernelApart(s, DirEntry(s, q, w / ENTRIES).frame, p); }
    }
  }

  lemma RemoveProcKeeps(s: Sys, p: Pid)
    requires Wf(s) && Tiled(s) && p in s.procs
    ensures var t := RemoveProc(s, p);
            && Wf(t) && Tiled(t)
            && (forall q, i :: DirEntry(t, q, i) == if q == p then Absent else DirEntry(s, q, i))
            && (forall q, w :: Lookup(t, q, w) == if q == p then Absent else Lookup(s, q, w))
  {
    hide Lookup, DirEntry, Wf, InRing;
    var t := RemoveProc(s, p);
    RemovedSpaces(s, p);
    forall q | q in s.procs
      ensures q in s.log
    {
      LogThere(s, q);
    }
    forall f, a
      ensures HeldAt(t, f, a) <==> (HeldBy(s, f, p) && a == FreeList) || (HeldAt(s, f, a) && !OfProc(a, p))
    {
    }
    RemovedTiled(s, t, p);
  }

  lemma RemovedFor(s: Sys, p: Pid, q: Pid)
    requires Wf(s) && Tiled(s) && p in s.procs && q in s.procs && q != p
    ensures WfProc(RemoveProc(s, p), q)
    ensures RemoveProc(s, p).tables[s.procs[q].cr3] == s.tables[s.procs[q].cr3]
  {
    assert WfProc(s, q);
    if s.procs[q].cr3 == s.procs[p].cr3 { SameDirectory(s, p, q); }
    forall i | 0 <= i < ENTRIES && s.tables[s.procs[q].cr3][i].Page?
      ensures s.tables[s.procs[q].cr3][i].frame != s.procs[p].cr3
    {
      assert DirEntry(s, q, i).Page?;
      if HasTable(s, q, i) { TablesDistinct(s, q, i, p, 0); } else { KernelApart(s, DirEntry(s, q, i).frame, p); }
    }
  }

  lemma RemovedTiled(s: Sys, t: Sys, p: Pid)
    requires Wf(s) && Wf(t) && Tiled(s) && t.managed == s.managed
    requires forall f, a :: HeldAt(t, f, a) <==>
               (HeldBy(s, f, p) && a == FreeList) || (HeldAt(s, f, a) && !OfProc(a, p))
    ensures Tiled(t)
  {
    hide HeldAt, Wf;
    forall f | f in t.managed
      ensures exists a :: HeldAt(t, f, a)
    {
      var a :| HeldAt(s, f, a);
      if OfProc(a, p) {
        assert HeldBy(s, f, p);
        assert HeldAt(t, f, FreeList);
      } else {
        assert HeldAt(t, f, a);
      }
    }
  }
}
