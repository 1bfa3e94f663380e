// What each call does to the machine, for a caller: result registers, records, what is
// mapped where afterwards, and what is left on the free list (kernel/process/proc.c:144-196,
// 332-513, kernel/process/page.c:115-198).
module Effects {
  import opened Pages
  import opened Dispose
  import opened Ipc

  /** The page a call takes for a missing table. */
  ghost function TablePage(s: Sys, p: Pid, v: nat, t: Frame): set<Frame> {
    if DirEntry(s, p, v / 1024) == Absent then {t} else {}
  }

  lemma EnsureFree(s: Sys, p: Pid, v: nat, t: Frame)
    requires Wf(s) && p in s.procs && v < ALL_PAGES
    ensures EnsureTable(s, p, v, t).free == s.free - TablePage(s, p, v, t)
    ensures DirEntry(s, p, v / ENTRIES).Page? ==> EnsureTable(s, p, v, t) == s
  {
  }

  /** A process that has a table has something to look up in it. */
  lemma Translated(s: Sys, p: Pid, v: nat)
    requires Wf(s) && Lookup(s, p, v).Page?
    ensures p in s.procs && DirEntry(s, p, v / ENTRIES).Page?
  {
  }

  /** The state of a system with another record for one process. */
  ghost predicate OnlyRecord(s: Sys, u: Sys, p: Pid, r: Proc) {
    u == s.(procs := s.procs[p := r])
  }

  // ----------------------------------------------------------------------- send

  ghost predicate Sendable(s: Sys, ecx: nat) {
    && ecx < 0xC000_0000 && ecx % 0x1000 == 0
    && Lookup(s, s.current, ecx / 0x1000).Page? && !Lookup(s, s.current, ecx / 0x1000).phy
  }

  /** The result of send: -2 for an address with no page to give, -1 for a process that is
      not in the list, 0 for a full ring, all with nothing else changed; 1 otherwise. */
  lemma SendResults(s: Sys, edx: Pid, ecx: nat, ebx: int, t: Frame, g: Frame)
    requires CanSend(s, edx, ecx, t, g)
    ensures var u, me := SendStep(s, edx, ecx, ebx, t, g), s.current;
            && me in s.procs && me in u.procs
            && var x := if !Sendable(s, ecx) then 0xFFFF_FFFE
                        else if edx == 0 || edx !in s.procs then 0xFFFF_FFFF
                        else if s.procs[edx].receiving == 0 && |s.procs[edx].queue| >= 256 then 0
                        else 1;
               && u.procs[me].ax == x
               && (x != 1 ==> OnlyRecord(s, u, me, s.procs[me].(ax := x)))
  {
    hide Deliver, PostTo, Lookup, Tiled, Wf, CanDeliver;
    SendAccepts(s, edx, ecx, ebx, t, g);
    RingBound(s, edx);
  }

  lemma RingBound(s: Sys, p: Pid)
    requires Inv(s)
    ensures p in s.procs ==> |s.procs[p].queue| <= 256 && (s.procs[p].receiving > 0 ==> s.procs[p].queue == [] && p != s.current)
    ensures s.current in s.procs && s.current in s.log && s.procs[s.current].avl == 1
  {
    if p in s.procs { assert ProcOk(s, p); }
    assert ProcOk(s, s.current);
  }

  /** A message taken by a waiting receiver: its page is at the address the receiver gave,
      its sender in the receiver's result register: the caller, or what the caller put in
      ebx. A fresh page is where the message's was. */
  lemma SendWakes(s: Sys, edx: Pid, ecx: nat, ebx: int, t: Frame, g: Frame)
    requires CanSend(s, edx, ecx, t, g) && Sendable(s, ecx) && edx != 0 && edx in s.procs && s.procs[edx].receiving > 0
    ensures var u, me, v := SendStep(s, edx, ecx, ebx, t, g), s.current, ecx / 0x1000;
            var m := Msg(if ebx == 0 then me else ebx, Lookup(s, me, v).frame);
            && me in s.procs && me != edx && edx in s.log
            && var w := s.procs[edx].cx;
            && u.procs == s.procs[edx := s.procs[edx].(receiving := 0, ax := m.sender, threadFlag := 0, avl := 1, flag := 0)]
                                 [me := s.procs[me].(ax := 1)]
            && u.log == s.log[edx := Log(s.log[edx].accepted + [m], s.log[edx].received + [m])]
            && u.current == me && u.free == s.free - TablePage(s, edx, w, t) - {g}
            && forall q, x: nat :: Lookup(u, q, x) ==
                 if q == me && x == v then Page(g, false)
                 else if q == edx && x == w then Page(m.frame, false) else Lookup(s, q, x)
  {
    hide Lookup, DirEntry, Wf, Tiled, Deliver, Waiting, TablePage;
    assert ProcOk(s, edx) && ProcOk(s, s.current);
    Delivered(s, edx, ecx / 0x1000, if ebx == 0 then s.current else ebx, t, g);
    Unmapped(Deliver(s, edx, ecx / 0x1000, if ebx == 0 then s.current else ebx, t, g), SendStep(s, edx, ecx, ebx, t, g));
  }

  lemma Delivered(s: Sys, q: Pid, v: nat, sender: int, t: Frame, g: Frame)
    requires CanDeliver(s, q, t, g) && v < USER_PAGES && Lookup(s, s.current, v).Page? && !Lookup(s, s.current, v).phy
    ensures var u, m, w := Deliver(s, q, v, sender, t, g), Msg(sender, Lookup(s, s.current, v).frame), s.procs[q].cx;
            && Wf(u) && q in s.log && u.procs == s.procs[q := Roused(s.procs[q], sender)]
            && u.log == s.log[q := Log(s.log[q].accepted + [m], s.log[q].received + [m])]
            && u.current == s.current && u.free == s.free - TablePage(s, q, w, t) - {g}
            && u.managed == s.managed && u.kernel == s.kernel
            && forall r, x: nat :: Lookup(u, r, x) ==
                 if r == s.current && x == v then Page(g, false)
                 else if r == q && x == w then Page(m.frame, false) else Lookup(s, r, x)
  {
    hide Lookup, DirEntry, Wf, Tiled, ProcOk, TablePage;
    var me, w := s.current, s.procs[q].cx;
    WaiterFacts(s, q);
    EnsureKeeps(s, q, w, t);
    EnsureFree(s, q, w, t);
    var s1 := EnsureTable(s, q, w, t);
    CarryKeeps(s1, me, v, q, w);
    var s2 := Carry(s1, me, v, q, w);
    LookupDir(s1, me, v);
    MapFreeKeeps(s2, me, v, g);
    var s3 := MapFree(s2, me, v, g);
    Unmapped(s3, Deliver(s, q, v, sender, t, g));
  }

  /** A message that joins the ring. */
  lemma SendQueues(s: Sys, edx: Pid, ecx: nat, ebx: int, t: Frame, g: Frame)
    requires CanSend(s, edx, ecx, t, g) && Sendable(s, ecx) && edx != 0 && edx in s.procs
    requires s.procs[edx].receiving == 0 && |s.procs[edx].queue| < 256
    ensures var u, me, v := SendStep(s, edx, ecx, ebx, t, g), s.current, ecx / 0x1000;
            var m := Msg(if ebx == 0 then me else ebx, Lookup(s, me, v).frame);
            && me in s.procs && edx in s.log
            && var ps := s.procs[edx := s.procs[edx].(queue := s.procs[edx].queue + [m])];
            && u.procs == ps[me := ps[me].(ax := 1)]
            && u.log == s.log[edx := s.log[edx].(accepted := s.log[edx].accepted + [m])]
            && u.current == me && u.free == s.free - {g}
            && forall q, x: nat :: Lookup(u, q, x) == if q == me && x == v then Page(g, false) else Lookup(s, q, x)
  {
    hide Lookup, DirEntry, Wf, Tiled;
    var me, v := s.current, ecx / 0x1000;
    assert ProcOk(s, edx) && ProcOk(s, me);
    var sender := if ebx == 0 then me else ebx;
    PostKeeps(s, me, v, edx, sender);
    LookupDir(s, me, v);
    var s1 := Post(s, me, v, edx, sender);
    MapFreeKeeps(s1, me, v, g);
    Unmapped(MapFree(s1, me, v, g), SendStep(s, edx, ecx, ebx, t, g));
  }

  // -------------------------------------------------------------------- receive

  /** An address receive may map a message at. */
  ghost predicate Takeable(s: Sys, ecx: nat) {
    && ecx < 0xC000_0000 && ecx % 0x1000 == 0
    && (Lookup(s, s.current, ecx / 0x1000).Page? ==> !Lookup(s, s.current, ecx / 0x1000).phy)
  }

  ghost function MappedPage(s: Sys, p: Pid, v: nat): set<Frame> {
    if Lookup(s, p, v).Page? then {Lookup(s, p, v).frame} else {}
  }

  lemma ReceiveRefused(s: Sys, ecx: nat, t: Frame, next: Pid)
    requires CanReceive(s, ecx, t, next) && !Takeable(s, ecx)
    ensures s.current in s.procs
            && OnlyRecord(s, ReceiveStep(s, ecx, t, next), s.current, s.procs[s.current].(ax := 0xFFFF_FFFE))
  {
    hide Lookup, Wf, Tiled, ProcOk;
  }

  /** The oldest message: its page is where it is wanted, instead of what was there. */
  lemma ReceiveTakes(s: Sys, ecx: nat, t: Frame, next: Pid)
    requires CanReceive(s, ecx, t, next) && Takeable(s, ecx) && s.procs[s.current].queue != []
    ensures var u, me, v := ReceiveStep(s, ecx, t, next), s.current, ecx / 0x1000;
            && me in s.log
            && var m := s.procs[me].queue[0];
            && u.procs == s.procs[me := s.procs[me].(ax := m.sender, queue := s.procs[me].queue[1..])]
            && u.log == s.log[me := s.log[me].(received := s.log[me].received + [m])]
            && u.current == me && u.free == s.free + MappedPage(s, me, v) - TablePage(s, me, v, t)
            && forall q, x: nat :: Lookup(u, q, x) == if q == me && x == v then Page(m.frame, false) else Lookup(s, q, x)
  {
    hide Lookup, DirEntry, Wf, Tiled, ReceiveStep, HasTable, MappedPage, TablePage;
    CurrentOk(s);
    var s2 := EmptiedParts(s, ecx, t, next);
    FetchKeeps(s2, s.current, PageOf(ecx));
    Unmapped(Fetch(s2, s.current, PageOf(ecx)), ReceiveStep(s, ecx, t, next));
  }

  /** The state in which it is fetched. */
  lemma EmptiedParts(s: Sys, ecx: nat, t: Frame, next: Pid) returns (u: Sys)
    requires CanReceive(s, ecx, t, next) && Takeable(s, ecx) && s.procs[s.current].queue != []
    ensures Wf(u) && Tiled(u) && u == s.(tables := u.tables, free := u.free)
    ensures u.free == s.free + MappedPage(s, s.current, PageOf(ecx)) - TablePage(s, s.current, PageOf(ecx), t)
    ensures HasTable(u, s.current, PageOf(ecx) / ENTRIES) && Lookup(u, s.current, PageOf(ecx)) == Absent
    ensures forall q, x: nat :: Lookup(u, q, x) == if q == s.current && x == PageOf(ecx) then Absent else Lookup(s, q, x)
    ensures ReceiveStep(s, ecx, t, next) == SetAx(Fetch(u, s.current, PageOf(ecx)), s.current, s.procs[s.current].queue[0].sender)
  {
    hide Lookup, DirEntry, Wf, Tiled, ProcOk, Fetch;
    var me, v := s.current, PageOf(ecx);
    ClearedKeeps(s, v);
    EnsureKeeps(Cleared(s, v), me, v, t);
    EnsureFree(Cleared(s, v), me, v, t);
    ClearedFree(s, v);
    u := EnsureTable(Cleared(s, v), me, v, t);
  }

  lemma ClearedFree(s: Sys, v: nat)
    requires Inv(s) && v < USER_PAGES && (Lookup(s, s.current, v).Page? ==> !Lookup(s, s.current, v).phy)
    ensures Cleared(s, v).free == s.free + MappedPage(s, s.current, v)
  {
    hide Lookup, DirEntry, Wf, Tiled, ProcOk;
  }

  /** With none queued the process sleeps until there is one for that address, and next
      runs. */
  lemma ReceiveSleeps(s: Sys, ecx: nat, t: Frame, next: Pid)
    requires CanReceive(s, ecx, t, next) && Takeable(s, ecx) && s.procs[s.current].queue == []
    ensures var u, me, v := ReceiveStep(s, ecx, t, next), s.current, ecx / 0x1000;
            && next in s.procs && next != me
            && u.procs == s.procs[me := s.procs[me].(flag := 1, threadFlag := 2, receiving := 1, avl := 0, cx := v)]
                                 [next := s.procs[next].(flag := 2)]
            && u.log == s.log && u.current == next && u.free == s.free + MappedPage(s, me, v)
            && forall q, x: nat :: Lookup(u, q, x) == if q == me && x == v then Absent else Lookup(s, q, x)
  {
    hide Lookup, DirEntry, Wf, Tiled, Cleared, ProcOk, MappedPage;
    var v := ecx / 0x1000;
    NotWaiting(s);
    ReadyOk(s, next);
    ClearedKeeps(s, v);
    ClearedFree(s, v);
    Unmapped(Cleared(s, v), ReceiveStep(s, ecx, t, next));
  }

  // ------------------------------------------------------------------ interrupts

  /** A waiting process gets a blank page and -1. */
  lemma InterruptWakes(s: Sys, p: Pid, t: Frame, g: Frame)
    requires CanInterrupt(s, p, t, g) && s.procs[p].receiving > 0
    ensures var u, w, m := InterruptStep(s, p, t, g), s.procs[p].cx, Msg(0xFFFF_FFFF, g);
            && p in s.log
            && u.procs == s.procs[p := s.procs[p].(receiving := 0, ax := 0xFFFF_FFFF, threadFlag := 0, avl := 1, flag := 0)]
            && u.log == s.log[p := Log(s.log[p].accepted + [m], s.log[p].received + [m])]
            && u.current == s.current && u.free == s.free - TablePage(s, p, w, t) - {g}
            && forall q, x: nat :: Lookup(u, q, x) == if q == p && x == w then Page(g, false) else Lookup(s, q, x)
  {
    hide Lookup, DirEntry, Wf, Tiled;
    var w := s.procs[p].cx;
    assert ProcOk(s, p);
    EnsureKeeps(s, p, w, t);
    EnsureFree(s, p, w, t);
    var s1 := EnsureTable(s, p, w, t);
    MapFreeKeeps(s1, p, w, g);
    Unmapped(MapFree(s1, p, w, g), InterruptStep(s, p, t, g));
  }

  /** Another has it queued, unless 256 are. */
  lemma InterruptQueues(s: Sys, p: Pid, t: Frame, g: Frame)
    requires CanInterrupt(s, p, t, g) && s.procs[p].receiving == 0
    ensures var u, m := InterruptStep(s, p, t, g), Msg(0xFFFF_FFFF, g);
            && p in s.log
            && (|s.procs[p].queue| >= 256 ==> u == s)
            && (|s.procs[p].queue| < 256 ==>
                  u == s.(procs := s.procs[p := s.procs[p].(queue := s.procs[p].queue + [m])],
                          log := s.log[p := s.log[p].(accepted := s.log[p].accepted + [m])], free := s.free - {g}))
  {
    hide Lookup, Wf, Tiled, CanDeliver;
    assert ProcOk(s, p);
  }

  // --------------------------------------------------------------- memory calls

  /** An entry that is taken stays as it is, and the result is -1. */
  lemma AllocRefused(s: Sys, ecx: nat, t: Frame, g: Frame)
    requires CanAlloc(s, ecx, t, g) && Lookup(s, s.current, ecx / 0x1000) != Absent
    ensures s.current in s.procs
            && OnlyRecord(s, AllocStep(s, ecx, t, g), s.current, s.procs[s.current].(ax := 0xFFFF_FFFF))
  {
    hide Lookup, DirEntry, Wf, Tiled, ProcOk;
    EnsureKeeps(s, s.current, PageOf(ecx), t);
    Translated(s, s.current, PageOf(ecx));
    EnsureFree(s, s.current, PageOf(ecx), t);
  }

  /** An empty one in a table that is not shared is filled with the page g. */
  lemma AllocMaps(s: Sys, ecx: nat, t: Frame, g: Frame)
    requires CanAlloc(s, ecx, t, g) && Lookup(s, s.current, ecx / 0x1000) == Absent && Private(s, ecx)
    ensures var u, me, v := AllocStep(s, ecx, t, g), s.current, ecx / 0x1000;
            && me in s.procs && u.procs == s.procs[me := s.procs[me].(ax := 0)]
            && u.log == s.log && u.current == me && u.free == s.free - TablePage(s, me, v, t) - {g}
            && forall q, x: nat :: Lookup(u, q, x) == if q == me && x == v then Page(g, false) else Lookup(s, q, x)
  {
    hide Lookup, DirEntry, Wf, Tiled, ProcOk, Sole;
    var me, v := s.current, PageOf(ecx);
    EnsureKeeps(s, me, v, t);
    EnsureFree(s, me, v, t);
    var s1 := EnsureTable(s, me, v, t);
    MapSoleKeeps(s1, me, v, g);
    Unmapped(MapFree(s1, me, v, g), AllocStep(s, ecx, t, g));
  }

  lemma OpenRefused(s: Sys, frame: Frame, ecx: nat, t: Frame)
    requires CanOpen(s, ecx, t) && Lookup(s, s.current, ecx / 0x1000) != Absent
    ensures s.current in s.procs
            && OnlyRecord(s, OpenStep(s, frame, ecx, t), s.current, s.procs[s.current].(ax := 0xFFFF_FFFF))
  {
    hide Lookup, DirEntry, Wf, Tiled, ProcOk;
    EnsureKeeps(s, s.current, PageOf(ecx), t);
    Translated(s, s.current, PageOf(ecx));
    EnsureFree(s, s.current, PageOf(ecx), t);
  }

  /** The frame asked for is mapped, marked, whichever frame it is; below PAGE_OFFSET
      nothing else changes. */
  lemma OpenMaps(s: Sys, frame: Frame, ecx: nat, t: Frame)
    requires CanOpen(s, ecx, t) && Lookup(s, s.current, ecx / 0x1000) == Absent
    ensures var u, me, v := OpenStep(s, frame, ecx, t), s.current, ecx / 0x1000;
            && me in s.procs && u.procs == s.procs[me := s.procs[me].(ax := 0)]
            && u.log == s.log && u.current == me && u.free == s.free - TablePage(s, me, v, t)
            && Lookup(u, me, v) == Page(frame, true)
            && forall q, x: nat :: x < 0xC_0000 && !(q == me && x == v) ==> Lookup(u, q, x) == Lookup(s, q, x)
  {
    hide Lookup, DirEntry, Wf, Tiled, ProcOk;
    var me, v := s.current, PageOf(ecx);
    EnsureKeeps(s, me, v, t);
    EnsureFree(s, me, v, t);
    var s1 := EnsureTable(s, me, v, t);
    OpenPhysicalKeeps(s1, me, v, frame);
    Unmapped(SetPte(s1, me, v, Page(frame, true)), OpenStep(s, frame, ecx, t));
  }

  /** Stack growth maps the page g where the fault was, and does nothing else. */
  lemma GrowMaps(s: Sys, v: nat, t: Frame, g: Frame)
    requires CanGrow(s, v, t, g)
    ensures var u, me := GrowStep(s, v, t, g), s.current;
            && u.procs == s.procs && u.log == s.log && u.current == me && u.free == s.free - TablePage(s, me, v, t) - {g}
            && forall q, x: nat :: Lookup(u, q, x) == if q == me && x == v then Page(g, false) else Lookup(s, q, x)
  {
    hide Lookup, DirEntry, Wf, Tiled, ProcOk;
    EnsureKeeps(s, s.current, v, t);
    EnsureFree(s, s.current, v, t);
    MapFreeKeeps(EnsureTable(s, s.current, v, t), s.current, v, g);
  }

  // --------------------------------------------------- switching, birth and death

  /** The process that ran is ready, the next one runs. */
  lemma SwitchRuns(s: Sys, next: Pid)
    requires CanSwitch(s, next)
    ensures var u := SwitchStep(s, next);
            && s.current in s.procs && u.current == next
            && u == s.(procs := u.procs, current := next) && u.procs.Keys == s.procs.Keys
            && forall p :: p in s.procs ==>
                 u.procs[p] == s.procs[p].(flag := if p == next then 2 else if p == s.current then 0 else s.procs[p].flag)
  {
    hide Lookup, Wf, Tiled;
    forall p | p in s.procs
      ensures SwitchStep(s, next).procs[p] ==
              s.procs[p].(flag := if p == next then 2 else if p == s.current then 0 else s.procs[p].flag)
    {
      assert ProcOk(s, p);
    }
  }

  /** A new process is ready, with one page at the top of its stack and, from PAGE_OFFSET on,
      the directory entries of its creator. */
  lemma CreateMakes(s: Sys, p: Pid, cr3: Frame, thread: Frame, t: Frame, g: Frame)
    requires CanCreate(s, p, cr3, thread, t, g) && LowOnly(s, s.current)
    ensures var u := CreateStep(s, p, cr3, thread, t, g);
            && u.procs == s.procs[p := Proc(cr3, thread, 0, 0, 0, 1, 0, 0, [])] && u.log == s.log[p := Log([], [])]
            && u.current == s.current && u.free == s.free - {cr3, thread, t, g}
            && (forall q, x: nat :: q != p ==> Lookup(u, q, x) == Lookup(s, q, x))
            && (forall x: nat :: x < 0xC_0000 ==> Lookup(u, p, x) == if x == 0xB_FFFF then Page(g, false) else Absent)
            && (forall i: nat :: 768 <= i < 1024 ==> DirEntry(u, p, i) == DirEntry(s, s.current, i))
  {
    hide Lookup, DirEntry, Wf, Tiled, LowOnly, CreateStep;
    CreateParts(s, p, cr3, thread, t, g);
    var s2 := WithTable(AddProc(s, p, cr3, thread, UpperOf(s, s.current)), p, STACK_TOP_TABLE, t);
    MapFreeKeeps(s2, p, STACK_TOP_PAGE, g);
    CreateRecords(s, p, cr3, thread, t, g);
    forall i: nat | 768 <= i < 1024
      ensures DirEntry(CreateStep(s, p, cr3, thread, t, g), p, i) == DirEntry(s, s.current, i)
    {
      OffsetPage(i);
      CreatedUpper(s, p, cr3, thread, t, g, i * 1024);
    }
  }

  lemma OffsetPage(i: nat)
    ensures i * 1024 / ENTRIES == i && (i >= 768 ==> i * 1024 >= USER_PAGES)
  {
  }

  lemma CreateRecords(s: Sys, p: Pid, cr3: Frame, thread: Frame, t: Frame, g: Frame)
    requires CanCreate(s, p, cr3, thread, t, g)
    ensures var u := CreateStep(s, p, cr3, thread, t, g);
            && u.procs == s.procs[p := Proc(cr3, thread, 0, 0, 0, 1, 0, 0, [])] && u.log == s.log[p := Log([], [])]
            && u.current == s.current && u.free == s.free - {cr3, thread, t, g}
  {
  }

  /** A process that ends is gone, the next one runs, what disposal hands back is free, and
      no other address space has changed. */
  lemma ExitLeaves(s: Sys, next: Pid)
    requires CanExit(s, next)
    ensures var u, me := ExitStep(s, next), s.current;
            && me in s.procs && Wf(s) && next in s.procs && next != me
            && u.procs == (s.procs - {me})[next := s.procs[next].(flag := 2)] && u.log == s.log - {me}
            && u.current == next && u.free == s.free + (set f | f in Recycled(s, me))
            && forall q, x: nat :: q != me ==> Lookup(u, q, x) == Lookup(s, q, x)
  {
    hide Recycled, ProcOk, NoStack;
    ReadyOk(s, next);
    ExitSpaces(s, next);
  }

  lemma ExitSpaces(s: Sys, next: Pid)
    requires CanExit(s, next)
    ensures forall q, x: nat :: q != s.current ==> Lookup(ExitStep(s, next), q, x) == Lookup(s, q, x)
  {
    hide Recycled, ProcOk, Lookup, DirEntry, Wf, Tiled, ExitStep, RemoveProc, NoStack, Owned;
    ReadyOk(s, next);
    RemovedSpaces(s, s.current);
    ExitTables(s, next);
    Unmapped(RemoveProc(s, s.current), ExitStep(s, next));
  }

  lemma ExitTables(s: Sys, next: Pid)
    requires CanExit(s, next)
    ensures Wf(s) && s.current in s.procs
    ensures ExitStep(s, next).tables == RemoveProc(s, s.current).tables
            && SameSpaces(RemoveProc(s, s.current), ExitStep(s, next))
  {
    hide Recycled, ProcOk, Owned, Tiled, NoStack;
    ReadyOk(s, next);
  }

  /** After init_proc there is the one process, running, with one page at the top of its
      stack and the kernel's tables from PAGE_OFFSET on. */
  lemma BootMakes(managed: set<Frame>, kernel: map<Frame, seq<Pte>>, upper: Upper, cr3: Frame, thread: Frame, t: Frame, g: Frame)
    requires BootPages(managed, cr3, thread, t, g) && KernelSpace(managed, kernel, upper)
    ensures var u := Boot(managed, kernel, upper, cr3, thread, t, g);
            && u.procs == map[0 := Proc(cr3, thread, 2, 0, 0, 1, 0, 0, [])] && u.log == map[0 := Log([], [])]
            && u.current == 0 && u.free == managed - {cr3, thread, t, g}
            && (forall x: nat :: x < 0xC_0000 ==> Lookup(u, 0, x) == if x == 0xB_FFFF then Page(g, false) else Absent)
            && (forall i: nat :: 768 <= i < 1024 ==> DirEntry(u, 0, i) == upper[i - 768])
  {
    hide Lookup, DirEntry, Tiled, Wf, LowOnly, Boot, KernelSpace;
    BootLow(managed, kernel, upper, cr3, thread, t, g);
    BootParts(managed, kernel, upper, cr3, thread, t, g);
    BootLookups(managed, kernel, upper, cr3, thread, t, g);
  }

  lemma BootLookups(managed: set<Frame>, kernel: map<Frame, seq<Pte>>, upper: Upper, cr3: Frame, thread: Frame, t: Frame, g: Frame)
    requires BootPages(managed, cr3, thread, t, g) && KernelSpace(managed, kernel, upper)
    ensures var u := Boot(managed, kernel, upper, cr3, thread, t, g);
            forall x: nat :: x < 0xC_0000 ==> Lookup(u, 0, x) == if x == 0xB_FFFF then Page(g, false) else Absent
  {
    hide Lookup, DirEntry, Tiled, Wf, LowOnly;
    var s0 := NoProcs(managed, kernel);
    BootTiled(managed, kernel, upper, cr3, thread, t, g);
    NoneYet(managed, kernel);
    AddProcKeeps(s0, INIT, cr3, thread, upper);
    var s1 := AddProc(s0, INIT, cr3, thread, upper);
    TableAdded(s1, INIT, STACK_TOP_TABLE, t);
    var s2 := WithTable(s1, INIT, STACK_TOP_TABLE, t);
    MapFreeKeeps(s2, INIT, STACK_TOP_PAGE, g);
    var s3 := MapFree(s2, INIT, STACK_TOP_PAGE, g);
    RegistersKeep(s3, Run(s3, INIT));
  }
}
