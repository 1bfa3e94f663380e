// The process machine (kernel/process/proc.c): page-moving messages, interrupts,
// memory calls, process creation and exit. Each step is one system call, interrupt
// or fault taken as a whole, on one CPU with one thread a process.
module Ipc {
  import opened Pages
  import opened Dispose

  /** Results in ax, as unsigned words. */
  const NO_ADDRESS: int := 0xFFFF_FFFE
  const MINUS_ONE: int := 0xFFFF_FFFF

  /** The process the process table hangs from; no message reaches it. */
  const INIT: Pid := 0

  predicate GoodAddress(ecx: nat) { ecx < 0xC000_0000 && ecx % 0x1000 == 0 }

  function PageOf(ecx: nat): nat { ecx / 0x1000 }

  datatype Step =
    | Send(edx: Pid, ecx: nat, ebx: int, t: Frame, g: Frame)
    | Receive(ecx: nat, t: Frame, next: Pid)
    | Interrupt(p: Pid, t: Frame, g: Frame)
    | AllocMemory(ecx: nat, t: Frame, g: Frame)
    | OpenPhysical(frame: Frame, ecx: nat, t: Frame)
    | GrowStack(v: nat, t: Frame, g: Frame)
    | Switch(next: Pid)
    | Create(p: Pid, cr3: Frame, thread: Frame, t: Frame, g: Frame)
    | Exit(next: Pid)

  // -------------------------------------------------------------- invariants

  ghost predicate ProcOk(s: Sys, p: Pid)
    requires Wf(s) && p in s.procs
  {
    var q := s.procs[p];
    && Logged(s, p) && |q.queue| <= MAX_MESSAGES
    && (q.flag == 2 <==> p == s.current)
    && ((q.receiving == 0 && q.threadFlag == 0 && q.avl == 1 && (q.flag == 0 || q.flag == 2))
        || (q.receiving == 1 && q.threadFlag == 2 && q.avl == 0 && q.flag == 1 && Waiting(s, p)))
  }

  /** A waiting receiver has no message queued and nothing mapped where it wants
      one. */
  ghost predicate Waiting(s: Sys, p: Pid)
    requires Wf(s) && p in s.procs
  {
    s.procs[p].queue == [] && s.procs[p].cx < USER_PAGES && Lookup(s, p, s.procs[p].cx) == Absent
  }

  ghost predicate Inv(s: Sys) {
    && Wf(s) && Tiled(s) && s.current in s.procs
    && s.log.Keys == s.procs.Keys
    && forall p :: p in s.procs ==> ProcOk(s, p)
  }

  // ---------------------------------------------------------- register effects

  function SetAx(s: Sys, p: Pid, x: int): Sys
    requires p in s.procs
  {
    s.(procs := s.procs[p := s.procs[p].(ax := x)])
  }

  /** receiving--, the result, threadAwake. */
  function Roused(r: Proc, sender: int): Proc
    requires r.receiving > 0
  {
    r.(receiving := r.receiving - 1, ax := sender, threadFlag := 0, avl := r.avl + 1,
       flag := if r.flag == 1 then 0 else r.flag)
  }

  /** Direct delivery; the message counts as accepted and received at once. */
  function Wake(s: Sys, q: Pid, m: Msg): Sys
    requires q in s.procs && q in s.log && s.procs[q].receiving > 0
  {
    s.(procs := s.procs[q := Roused(s.procs[q], m.sender)],
       log := s.log[q := Log(s.log[q].accepted + [m], s.log[q].received + [m])])
  }

  /** schedule's choice takes the CPU. */
  function Run(s: Sys, next: Pid): Sys
    requires next in s.procs
  {
    s.(procs := s.procs[next := s.procs[next].(flag := 2)], current := next)
  }

  function SetFlag(s: Sys, p: Pid, flag: nat): Sys
    requires p in s.procs
  {
    s.(procs := s.procs[p := s.procs[p].(flag := flag)])
  }

  /** threadSleep, schedule(1), then threadFlag 2 and receiving++. */
  function Sleep(s: Sys, v: nat, next: Pid): Sys
    requires s.current in s.procs && next in s.procs && s.procs[s.current].avl > 0
  {
    var c := s.procs[s.current];
    Run(s.(procs := s.procs[s.current := c.(flag := 1, threadFlag := 2, receiving := c.receiving + 1,
                                            avl := c.avl - 1, cx := v)]), next)
  }

  // ------------------------------------------------------------------- the calls

  /** SYSCALL_SEND with a page to give: straight to a waiting receiver's address; a
      fresh page takes the sender's entry. */
  ghost function Deliver(s: Sys, q: Pid, v: nat, sender: int, t: Frame, g: Frame): Sys
    requires CanDeliver(s, q, t, g) && v < USER_PAGES && Lookup(s, s.current, v).Page? && !Lookup(s, s.current, v).phy
  {
    var w := s.procs[q].cx;
    var m := Msg(sender, Lookup(s, s.current, v).frame);
    EnsureKeeps(s, q, w, t);
    var s1 := EnsureTable(s, q, w, t);
    CarryKeeps(s1, s.current, v, q, w);
    var s2 := Carry(s1, s.current, v, q, w);
    LookupDir(s1, s.current, v);
    Wake(MapFree(s2, s.current, v, g), q, m)
  }

  ghost predicate CanDeliver(s: Sys, q: Pid, t: Frame, g: Frame) {
    && Inv(s) && q in s.procs && s.procs[q].receiving > 0 && Waiting(s, q)
    && TableReady(s, q, s.procs[q].cx, t) && g in EnsureTable(s, q, s.procs[q].cx, t).free
  }

  /** SYSCALL_SEND with a page to give: into the ring. */
  ghost function PostTo(s: Sys, q: Pid, v: nat, sender: int, g: Frame): Sys
    requires Inv(s) && q in s.procs && v < USER_PAGES && Lookup(s, s.current, v).Page? && !Lookup(s, s.current, v).phy && g in s.free
  {
    assert ProcOk(s, q);
    PostKeeps(s, s.current, v, q, sender);
    LookupDir(s, s.current, v);
    MapFree(Post(s, s.current, v, q, sender), s.current, v, g)
  }

  /** The message a send would carry. */
  ghost function Parcel(s: Sys, ecx: nat, ebx: int): Msg
    requires Wf(s) && Lookup(s, s.current, PageOf(ecx)).Page?
  {
    Msg(if ebx == 0 then s.current else ebx, Lookup(s, s.current, PageOf(ecx)).frame)
  }

  ghost predicate HasPage(s: Sys, ecx: nat)
    requires Wf(s)
  {
    GoodAddress(ecx) && Lookup(s, s.current, PageOf(ecx)).Page? && !Lookup(s, s.current, PageOf(ecx)).phy
  }

  /** getProcessById: the list hangs from init, which it does not contain. */
  ghost predicate Listed(s: Sys, p: Pid) { p in s.procs && p != INIT }

  ghost predicate CanSend(s: Sys, edx: Pid, ecx: nat, t: Frame, g: Frame) {
    Inv(s) && (HasPage(s, ecx) && Listed(s, edx) ==>
      if s.procs[edx].receiving > 0 then CanDeliver(s, edx, t, g)
      else |s.procs[edx].queue| < MAX_MESSAGES ==> g in s.free)
  }

  /** SYSCALL_SEND. */
  ghost function SendStep(s: Sys, edx: Pid, ecx: nat, ebx: int, t: Frame, g: Frame): Sys
    requires CanSend(s, edx, ecx, t, g)
  {
    if !HasPage(s, ecx) then SetAx(s, s.current, NO_ADDRESS)
    else if !Listed(s, edx) then SetAx(s, s.current, MINUS_ONE)
    else if s.procs[edx].receiving > 0 then
      SetAx(Deliver(s, edx, PageOf(ecx), Parcel(s, ecx, ebx).sender, t, g), s.current, 1)
    else if |s.procs[edx].queue| < MAX_MESSAGES then
      SetAx(PostTo(s, edx, PageOf(ecx), Parcel(s, ecx, ebx).sender, g), s.current, 1)
    else SetAx(s, s.current, 0)
  }

  /** What is mapped at the receive address goes back to the free list. */
  ghost function Cleared(s: Sys, v: nat): Sys
    requires Wf(s) && v < USER_PAGES && (Lookup(s, s.current, v).Page? ==> !Lookup(s, s.current, v).phy)
  {
    if Lookup(s, s.current, v).Page? then UnmapFree(s, s.current, v) else s
  }

  ghost predicate CanReceive(s: Sys, ecx: nat, t: Frame, next: Pid) {
    Inv(s) && (GoodAddress(ecx) && !(Lookup(s, s.current, PageOf(ecx)).Page? && Lookup(s, s.current, PageOf(ecx)).phy) ==>
      if s.procs[s.current].queue == [] then next in s.procs && s.procs[next].flag == 0
      else TableReady(s, s.current, PageOf(ecx), t))
  }

  /** SYSCALL_RECEIVE. */
  ghost function ReceiveStep(s: Sys, ecx: nat, t: Frame, next: Pid): Sys
    requires CanReceive(s, ecx, t, next)
  {
    var cur, v := s.current, PageOf(ecx);
    if !GoodAddress(ecx) || (Lookup(s, cur, v).Page? && Lookup(s, cur, v).phy) then SetAx(s, cur, NO_ADDRESS)
    else
      ClearedKeeps(s, v);
      var s1 := Cleared(s, v);
      if s.procs[cur].queue == [] then Sleep(s1, v, next)
      else
        EnsureKeeps(s1, cur, v, t);
        var m := s.procs[cur].queue[0];
        SetAx(Fetch(EnsureTable(s1, cur, v, t), cur, v), cur, m.sender)
  }

  lemma ClearedKeeps(s: Sys, v: nat)
    requires Inv(s) && v < USER_PAGES && (Lookup(s, s.current, v).Page? ==> !Lookup(s, s.current, v).phy)
    ensures var u := Cleared(s, v);
            && Wf(u) && Tiled(u) && ProcOk(s, s.current)
            && (forall q, w :: Lookup(u, q, w) == if q == s.current && w == v then Absent else Lookup(s, q, w))
            && (forall q, i :: DirEntry(u, q, i) == DirEntry(s, q, i))
            && u == s.(tables := u.tables, free := u.free)
            && s.free <= u.free
            && (forall t :: v < USER_PAGES && TableReady(s, s.current, v, t) ==> TableReady(u, s.current, v, t))
  {
    if Lookup(s, s.current, v).Page? { UnmapFreeKeeps(s, s.current, v); }
  }

  ghost predicate CanInterrupt(s: Sys, p: Pid, t: Frame, g: Frame) {
    Inv(s) && p in s.procs &&
      if s.procs[p].receiving > 0 then CanDeliver(s, p, t, g) else |s.procs[p].queue| < MAX_MESSAGES ==> g in s.free
  }

  /** sendInterrupt: a blank page from sender -1, dropped if the ring is full. */
  ghost function InterruptStep(s: Sys, p: Pid, t: Frame, g: Frame): Sys
    requires CanInterrupt(s, p, t, g)
  {
    var m := Msg(MINUS_ONE, g);
    if s.procs[p].receiving > 0 then
      EnsureKeeps(s, p, s.procs[p].cx, t);
      Wake(MapFree(EnsureTable(s, p, s.procs[p].cx, t), p, s.procs[p].cx, g), p, m)
    else if |s.procs[p].queue| < MAX_MESSAGES then
      Enqueue(s, p, m).(free := s.free - {g})
    else s
  }

  ghost predicate CanAlloc(s: Sys, ecx: nat, t: Frame, g: Frame) {
    && Inv(s) && ecx < 0x1_0000_0000 && TableReady(s, s.current, PageOf(ecx), t)
    && g in EnsureTable(s, s.current, PageOf(ecx), t).free
  }

  /** SYSCALL_ALLOC_MEMORY of one page, at whatever address, in whatever table; the page
      comes back if the entry is taken. */
  ghost function AllocStep(s: Sys, ecx: nat, t: Frame, g: Frame): Sys
    requires CanAlloc(s, ecx, t, g)
  {
    var cur, v := s.current, PageOf(ecx);
    EnsureKeeps(s, cur, v, t);
    var s1 := EnsureTable(s, cur, v, t);
    if Lookup(s1, cur, v) != Absent then SetAx(s1, cur, MINUS_ONE) else SetAx(MapFree(s1, cur, v, g), cur, 0)
  }

  ghost predicate CanOpen(s: Sys, ecx: nat, t: Frame) {
    Inv(s) && ecx < 0x1_0000_0000 && TableReady(s, s.current, PageOf(ecx), t)
  }

  /** SYSCALL_OPEN_PHYSICAL_MEMORY of one page. */
  ghost function OpenStep(s: Sys, frame: Frame, ecx: nat, t: Frame): Sys
    requires CanOpen(s, ecx, t)
  {
    var cur, v := s.current, PageOf(ecx);
    EnsureKeeps(s, cur, v, t);
    var s1 := EnsureTable(s, cur, v, t);
    if Lookup(s1, cur, v) != Absent then SetAx(s1, cur, MINUS_ONE)
    else SetAx(SetPte(s1, cur, v, Page(frame, true)), cur, 0)
  }

  ghost predicate CanGrow(s: Sys, v: nat, t: Frame, g: Frame) {
    && Inv(s) && STACK_LOW < v < USER_PAGES && Lookup(s, s.current, v) == Absent
    && TableReady(s, s.current, v, t) && g in EnsureTable(s, s.current, v, t).free
  }

  /** pageFaultHandler: stack growth on a page that is not present. */
  ghost function GrowStep(s: Sys, v: nat, t: Frame, g: Frame): Sys
    requires CanGrow(s, v, t, g)
  {
    EnsureKeeps(s, s.current, v, t);
    MapFree(EnsureTable(s, s.current, v, t), s.current, v, g)
  }

  ghost predicate CanSwitch(s: Sys, next: Pid) {
    Inv(s) && next in s.procs && (s.procs[next].flag == 0 || next == s.current)
  }

  /** A timer tick or NICE: the running process becomes ready, next runs. */
  ghost function SwitchStep(s: Sys, next: Pid): Sys
    requires CanSwitch(s, next)
  {
    Run(SetFlag(s, s.current, 0), next)
  }

  // -------------------------------------------------- every call keeps the invariant

  /** A change of translations of one process that opens no physical memory. */
  ghost predicate Translates(s: Sys, t: Sys, p: Pid, v: nat, e: Pte)
    requires Wf(s) && Wf(t)
  {
    forall q, w :: Lookup(t, q, w) == if q == p && w == v then e else Lookup(s, q, w)
  }

  lemma AxKeeps(s: Sys, p: Pid, x: int)
    requires Inv(s) && p in s.procs
    ensures Inv(SetAx(s, p, x))
  {
    hide Lookup, DirEntry, Wf, Tiled;
    var t := SetAx(s, p, x);
    RegistersKeep(s, t);
    forall q | q in t.procs
      ensures ProcOk(t, q)
    {
      assert ProcOk(s, q);
    }
  }

  lemma NotWaiting(s: Sys)
    requires Inv(s)
    ensures s.current in s.procs && s.procs[s.current].receiving == 0 && s.procs[s.current].avl == 1
  {
    assert ProcOk(s, s.current);
  }

  lemma WaiterFacts(s: Sys, q: Pid)
    requires Inv(s) && q in s.procs && s.procs[q].receiving > 0
    ensures q != s.current && q in s.log && s.procs[q].queue == [] && s.log[q].accepted == s.log[q].received
  {
    assert ProcOk(s, q);
  }

  /** A process whose record, log and receive address are as they were. */
  lemma Undisturbed(s: Sys, t: Sys, p: Pid)
    requires Wf(s) && Wf(t) && p in s.procs && ProcOk(s, p) && p in t.procs && p in t.log
    requires t.procs[p] == s.procs[p] && t.log[p] == s.log[p] && (p == t.current <==> p == s.current)
    requires s.procs[p].receiving > 0 ==> Lookup(t, p, s.procs[p].cx) == Lookup(s, p, s.procs[p].cx)
    ensures ProcOk(t, p)
  {
    hide Lookup, Wf;
  }

  /** A ready process waits for nothing. */
  lemma ReadyOk(s: Sys, p: Pid)
    requires Inv(s) && p in s.procs && s.procs[p].flag == 0
    ensures p != s.current && p in s.log && s.procs[p].receiving == 0
  {
    assert ProcOk(s, p);
  }

  /** It may take the CPU. */
  lemma RunsOk(s: Sys, t: Sys, p: Pid)
    requires Wf(s) && Wf(t) && p in s.procs && ProcOk(s, p) && p in t.procs && p in t.log && s.procs[p].receiving == 0
    requires t.procs[p] == s.procs[p].(flag := 2) && t.log[p] == s.log[p] && t.current == p
    ensures ProcOk(t, p)
  {
    hide Lookup, Wf;
  }

  lemma AsleepOk(s: Sys, t: Sys, p: Pid)
    requires Wf(s) && Wf(t) && p in s.procs && ProcOk(s, p) && p in t.procs && p in t.log && s.procs[p].receiving == 0
    requires t.procs[p] == s.procs[p].(flag := 1, threadFlag := 2, receiving := 1, avl := s.procs[p].avl - 1, cx := t.procs[p].cx)
    requires t.log[p] == s.log[p] && p == s.current != t.current
    requires s.procs[p].queue == [] && t.procs[p].cx < USER_PAGES && Lookup(t, p, t.procs[p].cx) == Absent
    ensures ProcOk(t, p)
  {
    hide Lookup, Wf;
  }

  lemma RousedOk(s: Sys, t: Sys, q: Pid, m: Msg)
    requires Wf(s) && Wf(t) && q in s.procs && ProcOk(s, q) && q in t.procs && q in t.log && s.procs[q].receiving > 0
    requires t.procs[q] == Roused(s.procs[q], m.sender) && t.current == s.current
    requires t.log[q] == Log(s.log[q].accepted + [m], s.log[q].received + [m]) && s.log[q].accepted == s.log[q].received
    ensures ProcOk(t, q)
  {
    hide Lookup, Wf;
  }

  /** A waiting receiver served: the page is mapped where it asked for it. */
  lemma WakeKeeps(s: Sys, u: Sys, q: Pid, m: Msg, other: Pid, v: nat, e: Pte)
    requires Inv(s) && q in s.procs && s.procs[q].receiving > 0
    requires Wf(u) && Tiled(u) && u.procs == s.procs && u.log == s.log && u.current == s.current
    requires other == s.current || other == q
    requires forall r, x :: Lookup(u, r, x) ==
               if r == other && x == v then e
               else if r == q && x == s.procs[q].cx then Page(m.frame, false) else Lookup(s, r, x)
    ensures Inv(Wake(u, q, m))
    ensures Lookup(Wake(u, q, m), q, s.procs[q].cx) == Lookup(u, q, s.procs[q].cx)
  {
    hide Lookup, DirEntry, Wf, Tiled, ProcOk;
    var t := Wake(u, q, m);
    WaiterFacts(s, q);
    NotWaiting(s);
    RegistersKeep(u, t);
    forall p | p in t.procs
      ensures ProcOk(t, p)
    {
      assert ProcOk(s, p);
      if p == q { RousedOk(s, t, q, m); } else { Undisturbed(s, t, p); }
    }
  }

  lemma DeliverKeeps(s: Sys, q: Pid, v: nat, sender: int, t: Frame, g: Frame)
    requires CanDeliver(s, q, t, g) && v < USER_PAGES && Lookup(s, s.current, v).Page? && !Lookup(s, s.current, v).phy
    ensures Inv(Deliver(s, q, v, sender, t, g)) && Deliver(s, q, v, sender, t, g).current == s.current
    ensures Lookup(Deliver(s, q, v, sender, t, g), q, s.procs[q].cx) == Lookup(s, s.current, v)
  {
    hide WfProc, KernelWf, IsTable, Lookup, DirEntry;
    var w := s.procs[q].cx;
    var m := Msg(sender, Lookup(s, s.current, v).frame);
    assert ProcOk(s, q) && ProcOk(s, s.current);
    EnsureKeeps(s, q, w, t);
    var s1 := EnsureTable(s, q, w, t);
    CarryKeeps(s1, s.current, v, q, w);
    var s2 := Carry(s1, s.current, v, q, w);
    LookupDir(s1, s.current, v);
    MapFreeKeeps(s2, s.current, v, g);
    var s3 := MapFree(s2, s.current, v, g);
    WakeKeeps(s, s3, q, m, s.current, v, Page(g, false));
  }

  lemma PostToKeeps(s: Sys, q: Pid, v: nat, sender: int, g: Frame)
    requires Inv(s) && q in s.procs && v < USER_PAGES && Lookup(s, s.current, v).Page? && !Lookup(s, s.current, v).phy && g in s.free
    requires s.procs[q].receiving == 0 && |s.procs[q].queue| < MAX_MESSAGES
    ensures Inv(PostTo(s, q, v, sender, g)) && PostTo(s, q, v, sender, g).current == s.current
  {
    hide Lookup, DirEntry, Wf, Tiled, WfProc, KernelWf, IsTable;
    assert ProcOk(s, q) && ProcOk(s, s.current);
    PostKeeps(s, s.current, v, q, sender);
    LookupDir(s, s.current, v);
    var s1 := Post(s, s.current, v, q, sender);
    MapFreeKeeps(s1, s.current, v, g);
    var t := PostTo(s, q, v, sender, g);
    forall p | p in t.procs
      ensures ProcOk(t, p)
    {
      assert ProcOk(s, p);
    }
  }

  lemma SendKeeps(s: Sys, edx: Pid, ecx: nat, ebx: int, t: Frame, g: Frame)
    requires CanSend(s, edx, ecx, t, g)
    ensures Inv(SendStep(s, edx, ecx, ebx, t, g))
  {
    hide Lookup, Deliver, PostTo, Waiting, TableReady;
    if !HasPage(s, ecx) {
      CurrentAx(s, NO_ADDRESS);
    } else if !Listed(s, edx) {
      CurrentAx(s, MINUS_ONE);
    } else if s.procs[edx].receiving > 0 {
      var sender := Parcel(s, ecx, ebx).sender;
      DeliverKeeps(s, edx, PageOf(ecx), sender, t, g);
      CurrentKept(s, Deliver(s, edx, PageOf(ecx), sender, t, g), 1);
    } else if |s.procs[edx].queue| < MAX_MESSAGES {
      PostToKeeps(s, edx, PageOf(ecx), Parcel(s, ecx, ebx).sender, g);
      CurrentKept(s, PostTo(s, edx, PageOf(ecx), Parcel(s, ecx, ebx).sender, g), 1);
    } else {
      CurrentAx(s, 0);
    }
  }

  lemma CurrentAx(s: Sys, x: int)
    requires Inv(s)
    ensures s.current in s.procs && Inv(SetAx(s, s.current, x))
  {
    AxKeeps(s, s.current, x);
  }

  lemma CurrentKept(s: Sys, t: Sys, x: int)
    requires Inv(s) && Inv(t) && t.current == s.current
    ensures s.current in t.procs && Inv(SetAx(t, s.current, x))
  {
    AxKeeps(t, s.current, x);
  }

  lemma SleepKeeps(s: Sys, u: Sys, v: nat, next: Pid)
    requires Inv(s) && v < USER_PAGES && s.procs[s.current].queue == []
    requires Wf(u) && Tiled(u) && u.procs == s.procs && u.log == s.log && u.current == s.current
    requires Translates(s, u, s.current, v, Absent)
    requires next in s.procs && s.procs[next].flag == 0 && ProcOk(s, s.current)
    ensures Inv(Sleep(u, v, next))
  {
    hide Lookup, DirEntry, Wf, Tiled, ProcOk;
    NotWaiting(s);
    CurrentOk(s);
    var t := Sleep(u, v, next);
    ReadyOk(s, next);
    RegistersKeep(u, t);
    forall p | p in t.procs
      ensures ProcOk(t, p)
    {
      assert ProcOk(s, p);
      if p == next { RunsOk(s, t, p); } else if p == s.current { AsleepOk(s, t, p); } else { Undisturbed(s, t, p); }
    }
  }

  lemma ReceiveKeeps(s: Sys, ecx: nat, t: Frame, next: Pid)
    requires CanReceive(s, ecx, t, next)
    ensures Inv(ReceiveStep(s, ecx, t, next))
  {
    hide WfProc, KernelWf, IsTable, Lookup, DirEntry;
    var cur, v := s.current, PageOf(ecx);
    if !GoodAddress(ecx) || (Lookup(s, cur, v).Page? && Lookup(s, cur, v).phy) {
      CurrentAx(s, NO_ADDRESS);
    } else {
      ClearedKeeps(s, v);
      var s1 := Cleared(s, v);
      if s.procs[cur].queue == [] {
        SleepKeeps(s, s1, v, next);
      } else {
        EnsureKeeps(s1, cur, v, t);
        var s2 := EnsureTable(s1, cur, v, t);
        FetchedKeeps(s, s2, v);
      }
    }
  }

  lemma FetchedKeeps(s: Sys, u: Sys, v: nat)
    requires Inv(s) && s.procs[s.current].queue != []
    requires Wf(u) && Tiled(u) && u.procs == s.procs && u.log == s.log && u.current == s.current
    requires Translates(s, u, s.current, v, Absent) && HasTable(u, s.current, v / ENTRIES)
    ensures Inv(SetAx(Fetch(u, s.current, v), s.current, s.procs[s.current].queue[0].sender))
    ensures Lookup(Fetch(u, s.current, v), s.current, v) == Page(s.procs[s.current].queue[0].frame, false)
  {
    hide Lookup, DirEntry, Wf, Tiled, ProcOk, HasTable;
    var cur := s.current;
    CurrentOk(s);
    NotWaiting(s);
    FetchKeeps(u, cur, v);
    var t := Fetch(u, cur, v);
    forall p | p in t.procs
      ensures ProcOk(t, p)
    {
      assert ProcOk(s, p);
      if p == cur { FetchedOk(s, t, p); } else { Undisturbed(s, t, p); }
    }
    AxKeeps(t, cur, s.procs[cur].queue[0].sender);
  }

  lemma FetchedOk(s: Sys, t: Sys, p: Pid)
    requires Wf(s) && Wf(t) && p in s.procs && ProcOk(s, p) && p in t.procs && p in t.log && s.procs[p].receiving == 0
    requires s.procs[p].queue != [] && t.current == s.current
    requires t.procs[p] == s.procs[p].(queue := s.procs[p].queue[1..])
    requires t.log[p] == s.log[p].(received := s.log[p].received + [s.procs[p].queue[0]])
    ensures ProcOk(t, p)
  {
    hide Lookup, Wf;
  }

  lemma InterruptKeeps(s: Sys, p: Pid, t: Frame, g: Frame)
    requires CanInterrupt(s, p, t, g)
    ensures Inv(InterruptStep(s, p, t, g))
  {
    hide Lookup, DirEntry, Wf, Tiled;
    var m := Msg(MINUS_ONE, g);
    assert ProcOk(s, p);
    if s.procs[p].receiving > 0 {
      var w := s.procs[p].cx;
      EnsureKeeps(s, p, w, t);
      var s1 := EnsureTable(s, p, w, t);
      MapFreeKeeps(s1, p, w, g);
      WakeKeeps(s, MapFree(s1, p, w, g), p, m, p, w, Page(g, false));
    } else if |s.procs[p].queue| < MAX_MESSAGES {
      PostFreshKeeps(s, p, m);
      var u := Enqueue(s, p, m).(free := s.free - {g});
      forall q | q in u.procs
        ensures ProcOk(u, q)
      {
        assert ProcOk(s, q);
      }
    }
  }

  /** A page, table or physical mapping gained by the running process: below PAGE_OFFSET
      no other process sees it. */
  lemma CurrentGains(s: Sys, u: Sys, v: nat)
    requires Inv(s) && Wf(u) && Tiled(u) && u.procs == s.procs && u.log == s.log && u.current == s.current
    requires forall q, w: nat :: w < USER_PAGES && !(q == s.current && w == v) ==> Lookup(u, q, w) == Lookup(s, q, w)
    ensures Inv(u)
  {
    hide Lookup, Wf, Tiled, ProcOk;
    NotWaiting(s);
    forall p | p in u.procs
      ensures ProcOk(u, p)
    {
      assert ProcOk(s, p);
      if s.procs[p].receiving > 0 { WaitsLow(s, p); }
      Undisturbed(s, u, p);
    }
  }

  lemma WaitsLow(s: Sys, p: Pid)
    requires Wf(s) && p in s.procs && ProcOk(s, p) && s.procs[p].receiving > 0
    ensures s.procs[p].cx < USER_PAGES
  {
  }

  /** The entry ALLOC_MEMORY is to fill is taken, or in a table to which no other directory
      entry leads. */
  ghost predicate Private(s: Sys, ecx: nat) {
    Lookup(s, s.current, PageOf(ecx)) != Absent || Sole(s, s.current, PageOf(ecx) / ENTRIES)
  }

  lemma AllocKeeps(s: Sys, ecx: nat, t: Frame, g: Frame)
    requires CanAlloc(s, ecx, t, g) && Private(s, ecx)
    ensures Inv(AllocStep(s, ecx, t, g))
  {
    hide Lookup, DirEntry, Wf, Tiled, ProcOk, Sole;
    var cur, v := s.current, PageOf(ecx);
    EnsureKeeps(s, cur, v, t);
    var s1 := EnsureTable(s, cur, v, t);
    if Lookup(s1, cur, v) != Absent {
      CurrentGains(s, s1, v);
      CurrentKept(s, s1, MINUS_ONE);
    } else {
      MapSoleKeeps(s1, cur, v, g);
      CurrentGains(s, MapFree(s1, cur, v, g), v);
      CurrentKept(s, MapFree(s1, cur, v, g), 0);
    }
  }

  lemma OpenKeeps(s: Sys, frame: Frame, ecx: nat, t: Frame)
    requires CanOpen(s, ecx, t)
    ensures Inv(OpenStep(s, frame, ecx, t))
  {
    hide Lookup, DirEntry, Wf, Tiled, ProcOk, Sole;
    var cur, v := s.current, PageOf(ecx);
    EnsureKeeps(s, cur, v, t);
    var s1 := EnsureTable(s, cur, v, t);
    if Lookup(s1, cur, v) != Absent {
      CurrentGains(s, s1, v);
      CurrentKept(s, s1, MINUS_ONE);
    } else {
      OpenPhysicalKeeps(s1, cur, v, frame);
      CurrentGains(s, SetPte(s1, cur, v, Page(frame, true)), v);
      CurrentKept(s, SetPte(s1, cur, v, Page(frame, true)), 0);
    }
  }

  lemma GrowKeeps(s: Sys, v: nat, t: Frame, g: Frame)
    requires CanGrow(s, v, t, g)
    ensures Inv(GrowStep(s, v, t, g))
  {
    EnsureKeeps(s, s.current, v, t);
    MapFreeKeeps(EnsureTable(s, s.current, v, t), s.current, v, g);
    CurrentGains(s, GrowStep(s, v, t, g), v);
  }

  lemma SwitchKeeps(s: Sys, next: Pid)
    requires CanSwitch(s, next)
    ensures Inv(SwitchStep(s, next))
  {
    hide Lookup, DirEntry, Wf, Tiled;
    var t := SwitchStep(s, next);
    RegistersKeep(s, t);
    assert ProcOk(s, s.current);
    forall p | p in t.procs
      ensures ProcOk(t, p)
    {
      assert ProcOk(s, p);
    }
  }

  // ------------------------------------------------------ creation and exit

  const STACK_TOP_PAGE: nat := 786431

  /** newProcess's identifier: the least unused positive one. */
  ghost predicate LeastUnused(s: Sys, p: Pid) {
    p > 0 && p !in s.procs && forall q: Pid :: 0 < q < p ==> q in s.procs
  }

  ghost predicate CanCreate(s: Sys, p: Pid, cr3: Frame, thread: Frame, t: Frame, g: Frame) {
    Inv(s) && LeastUnused(s, p) && {cr3, thread, t, g} <= s.free && FourDistinct(cr3, thread, t, g)
  }

  /** createProcess: an address space with one stack page, and from PAGE_OFFSET on what
      the creator has there. */
  ghost function CreateStep(s: Sys, p: Pid, cr3: Frame, thread: Frame, t: Frame, g: Frame): Sys
    requires CanCreate(s, p, cr3, thread, t, g)
  {
    s.(procs := s.procs[p := NewProc(cr3, thread)], log := s.log[p := Log([], [])],
       tables := s.tables[cr3 := (NoTables() + UpperOf(s, s.current))[STACK_TOP_TABLE := Page(t, false)]]
                         [t := NoEntries()[ENTRIES - 1 := Page(g, false)]],
       free := s.free - {cr3, thread, t, g})
  }

  predicate FourDistinct(a: Frame, b: Frame, c: Frame, d: Frame) {
    a != b && a != c && a != d && b != c && b != d && c != d
  }

  /** In three steps: the directory, the table of the stack, its page. */
  lemma CreateParts(s: Sys, p: Pid, cr3: Frame, thread: Frame, t: Frame, g: Frame)
    requires CanCreate(s, p, cr3, thread, t, g) && LowOnly(s, s.current)
    ensures var s1 := AddProc(s, p, cr3, thread, UpperOf(s, s.current));
            && Wf(s1) && Tiled(s1) && LowOnly(s1, p) && DirEntry(s1, p, STACK_TOP_TABLE) == Absent
            && (forall q, i :: q != p ==> DirEntry(s1, q, i) == DirEntry(s, q, i))
            && (forall q, w: nat :: q != p ==> Lookup(s1, q, w) == Lookup(s, q, w))
            && (forall w: nat :: w < USER_PAGES ==> Lookup(s1, p, w) == Absent)
            && var s2 := WithTable(s1, p, STACK_TOP_TABLE, t);
               && Wf(s2) && Tiled(s2) && HasTable(s2, p, STACK_TOP_TABLE)
               && (forall q, w: nat :: Lookup(s2, q, w) == Lookup(s1, q, w))
               && CreateStep(s, p, cr3, thread, t, g) == MapFree(s2, p, STACK_TOP_PAGE, g)
  {
    hide Lookup, Wf, Tiled, LowOnly, UpperOf, ProcOk, KernelOnly, TablesThere, NoEntries, NoTables;
    UpperFacts(s, s.current);
    AddProcKeeps(s, p, cr3, thread, UpperOf(s, s.current));
    var s1 := AddProc(s, p, cr3, thread, UpperOf(s, s.current));
    NoEntryYet(s, p);
    TableAdded(s1, p, STACK_TOP_TABLE, t);
    StackMade(s1, p, cr3, t, g);
  }

  lemma NoEntryYet(s: Sys, p: Pid)
    requires p !in s.procs
    ensures forall i :: DirEntry(s, p, i) == Absent
  {
  }

  /** Setting up the stack, on the entries. */
  lemma StackMade(s: Sys, p: Pid, cr3: Frame, t: Frame, g: Frame)
    requires Wf(s) && Tiled(s) && p in s.procs && s.procs[p].cr3 == cr3 && t in s.free
    requires DirEntry(s, p, STACK_TOP_TABLE) == Absent
    ensures var s2 := WithTable(s, p, STACK_TOP_TABLE, t);
            && Wf(s2) && HasTable(s2, p, STACK_TOP_TABLE) && cr3 in s.tables && |s.tables[cr3]| == ENTRIES
            && MapFree(s2, p, STACK_TOP_PAGE, g) ==
               s.(tables := s.tables[cr3 := s.tables[cr3][STACK_TOP_TABLE := Page(t, false)]]
                                    [t := NoEntries()[ENTRIES - 1 := Page(g, false)]], free := s.free - {t} - {g})
  {
    assert WfProc(s, p);
    TableAdded(s, p, STACK_TOP_TABLE, t);
  }

  lemma CreateKeeps(s: Sys, p: Pid, cr3: Frame, thread: Frame, t: Frame, g: Frame)
    requires CanCreate(s, p, cr3, thread, t, g) && LowOnly(s, s.current)
    ensures Inv(CreateStep(s, p, cr3, thread, t, g))
  {
    CreateParts(s, p, cr3, thread, t, g);
    var s2 := WithTable(AddProc(s, p, cr3, thread, UpperOf(s, s.current)), p, STACK_TOP_TABLE, t);
    MapFreeKeeps(s2, p, STACK_TOP_PAGE, g);
    var u := CreateStep(s, p, cr3, thread, t, g);
    forall q | q in u.procs
      ensures ProcOk(u, q)
    {
      if q != p { assert ProcOk(s, q); }
    }
  }

  /** Every page still has one owner exactly if the creator had nothing of its own at
      PAGE_OFFSET or above, neither a table nor a page in one of the kernel's: both
      directories would lead to it. */
  lemma CreateShares(s: Sys, p: Pid, cr3: Frame, thread: Frame, t: Frame, g: Frame)
    requires CanCreate(s, p, cr3, thread, t, g)
    ensures var u := CreateStep(s, p, cr3, thread, t, g);
            Wf(u) && (Tiled(u) <==> LowOnly(s, s.current))
  {
    var u := CreateStep(s, p, cr3, thread, t, g);
    CreateWf(s, p, cr3, thread, t, g);
    if LowOnly(s, s.current) {
      CreateKeeps(s, p, cr3, thread, t, g);
    } else if v: nat :| v >= USER_PAGES && Lookup(s, s.current, v).Page? && !Lookup(s, s.current, v).phy {
      CreatedUpper(s, p, cr3, thread, t, g, v);
      HeldTwice(u, Lookup(s, s.current, v).frame, Mapped(s.current, v), Mapped(p, v));
    } else {
      var i: nat :| i >= USER_TABLES && HasTable(s, s.current, i);
      SharedTable(s, u, p, i);
    }
  }

  lemma HeldTwice(s: Sys, f: Frame, a: Place, b: Place)
    requires Wf(s) && a != b && HeldAt(s, f, a) && HeldAt(s, f, b)
    ensures !Tiled(s)
  {
  }

  /** From PAGE_OFFSET on the two processes have the same memory. */
  lemma CreatedUpper(s: Sys, p: Pid, cr3: Frame, thread: Frame, t: Frame, g: Frame, v: nat)
    requires CanCreate(s, p, cr3, thread, t, g) && v >= USER_PAGES
    ensures var u := CreateStep(s, p, cr3, thread, t, g);
            && Wf(u) && p != s.current && Lookup(u, p, v) == Lookup(u, s.current, v) == Lookup(s, s.current, v)
            && DirEntry(u, p, v / ENTRIES) == DirEntry(u, s.current, v / ENTRIES) == DirEntry(s, s.current, v / ENTRIES)
  {
    hide KernelWf, Tiled, ProcOk, IsTable;
    var u, i := CreateStep(s, p, cr3, thread, t, g), v / ENTRIES;
    CreateWf(s, p, cr3, thread, t, g);
    assert WfProc(s, s.current) && WfProc(u, s.current) && WfProc(u, p);
    FreshElsewhere(s, s.current, cr3);
    FreshElsewhere(s, s.current, t);
    if i < ENTRIES {
      assert UpperOf(s, s.current)[i - USER_TABLES] == DirEntry(s, s.current, i) == DirEntry(u, p, i) == DirEntry(u, s.current, i);
    }
  }

  lemma CreateWf(s: Sys, p: Pid, cr3: Frame, thread: Frame, t: Frame, g: Frame)
    requires CanCreate(s, p, cr3, thread, t, g)
    ensures var u := CreateStep(s, p, cr3, thread, t, g);
            && Wf(u) && u.tables[s.procs[s.current].cr3] == s.tables[s.procs[s.current].cr3]
            && |u.tables[cr3]| == ENTRIES && u.tables[cr3][USER_TABLES..] == UpperOf(s, s.current)
  {
    hide KernelWf, Lookup, ProcOk, IsTable, NoTables, NoEntries, UpperOf, WfProc, DirEntry, Tiled;
    KernelTables(s);
    var u := CreateStep(s, p, cr3, thread, t, g);
    Unused(s, cr3);
    Unused(s, t);
    KernelStays(s, u);
    forall q | q in s.procs
      ensures WfProc(u, q)
    {
      FreshElsewhere(s, q, cr3);
      FreshElsewhere(s, q, t);
      CreateWfFor(s, u, q, cr3, t);
    }
    FreshElsewhere(s, s.current, cr3);
    FreshElsewhere(s, s.current, t);
    CreateWfFor(s, u, s.current, cr3, t);
    CreatedWf(s, u, p, cr3, t, g);
  }

  lemma CreateWfFor(s: Sys, u: Sys, q: Pid, cr3: Frame, t: Frame)
    requires Wf(s) && q in s.procs && q in u.procs && q in u.log && u.procs[q] == s.procs[q] && u.kernel == s.kernel
    requires WfProc(s, q) && s.procs[q].cr3 != cr3 && s.procs[q].cr3 != t
    requires forall i :: DirEntry(s, q, i).Page? ==> DirEntry(s, q, i).frame != cr3 && DirEntry(s, q, i).frame != t
    requires forall i :: 0 <= i < ENTRIES ==> s.tables[s.procs[q].cr3][i] == DirEntry(s, q, i)
    requires forall f :: f in s.tables && f != cr3 && f != t ==> f in u.tables && u.tables[f] == s.tables[f]
    ensures WfProc(u, q) && s.procs[q].cr3 in s.tables && s.procs[q].cr3 in u.tables
    ensures u.tables[s.procs[q].cr3] == s.tables[s.procs[q].cr3]
  {
    hide DirEntry, KernelWf;
  }

  /** The new directory: the table of the stack, and the creator's upper half. */
  lemma CreatedWf(s: Sys, u: Sys, p: Pid, cr3: Frame, t: Frame, g: Frame)
    requires Wf(s) && s.current in s.procs && cr3 != t && t !in s.kernel && u.kernel == s.kernel
    requires p in u.procs && p in u.log && u.procs[p].cr3 == cr3 && cr3 in u.tables && t in u.tables
    requires u.tables[cr3] == (NoTables() + UpperOf(s, s.current))[STACK_TOP_TABLE := Page(t, false)]
    requires u.tables[t] == NoEntries()[ENTRIES - 1 := Page(g, false)]
    requires forall f :: f in s.tables && f != cr3 && f != t ==> f in u.tables && u.tables[f] == s.tables[f]
    requires forall i :: DirEntry(s, s.current, i).Page? ==>
               DirEntry(s, s.current, i).frame != cr3 && DirEntry(s, s.current, i).frame != t
    ensures WfProc(u, p) && |u.tables[cr3]| == ENTRIES && u.tables[cr3][USER_TABLES..] == UpperOf(s, s.current)
  {
    hide KernelWf;
    assert WfProc(s, s.current);
    forall i | USER_TABLES <= i < ENTRIES
      ensures u.tables[cr3][i] == DirEntry(s, s.current, i)
    {
      assert UpperOf(s, s.current)[i - USER_TABLES] == DirEntry(s, s.current, i);
    }
  }

  lemma SharedTable(s: Sys, u: Sys, p: Pid, i: nat)
    requires Wf(s) && Wf(u) && i >= USER_TABLES && HasTable(s, s.current, i) && p != s.current && u.kernel == s.kernel
    requires p in u.procs && s.current in s.procs && s.current in u.procs && u.procs[s.current] == s.procs[s.current]
    requires u.tables[s.procs[s.current].cr3] == s.tables[s.procs[s.current].cr3]
    requires u.procs[p].cr3 in u.tables && u.tables[u.procs[p].cr3][USER_TABLES..] == UpperOf(s, s.current)
    ensures !Tiled(u)
  {
    assert WfProc(u, p) && WfProc(u, s.current) && WfProc(s, s.current);
    assert UpperOf(s, s.current)[i - USER_TABLES] == DirEntry(s, s.current, i) == DirEntry(u, p, i);
    var f := DirEntry(u, p, i).frame;
    assert HeldAt(u, f, Table(p, i)) && HeldAt(u, f, Table(s.current, i));
  }

  ghost predicate CanExit(s: Sys, next: Pid) {
    Inv(s) && s.current != INIT && next in s.procs && s.procs[next].flag == 0
  }

  /** EXIT, or the end of a process killed by a fault. */
  ghost function ExitStep(s: Sys, next: Pid): Sys
    requires CanExit(s, next)
  {
    assert WfProc(s, s.current);
    var d := s.procs[s.current].cr3;
    Run(s.(procs := s.procs - {s.current}, log := s.log - {s.current}, tables := s.tables[d := NoStack(s.tables[d])],
           free := s.free + set f | f in Recycled(s, s.current)), next)
  }

  /** Nothing is marked in the stack window, nothing mapped at PAGE_OFFSET or above: what
      goes back to the free list is what the process owned. */
  lemma ExitKeeps(s: Sys, next: Pid)
    requires CanExit(s, next) && CleanStack(s, s.current) && LowOnly(s, s.current)
    ensures Inv(ExitStep(s, next)) && ExitStep(s, next) == Run(RemoveProc(s, s.current), next)
  {
    hide ExitStep, CleanStack, LowOnly, Owned, Lookup, DirEntry, Wf, Tiled, ProcOk, NoStack;
    ReadyOk(s, next);
    ExitIs(s, next);
    var u, t := RemoveProc(s, s.current), Run(RemoveProc(s, s.current), next);
    RemoveProcKeeps(s, s.current);
    RegistersKeep(u, t);
    forall q | q in t.procs
      ensures ProcOk(t, q)
    {
      assert ProcOk(s, q);
      if q == next { RunsOk(s, t, q); } else { Undisturbed(s, t, q); }
    }
  }

  lemma ExitIs(s: Sys, next: Pid)
    requires CanExit(s, next) && CleanStack(s, s.current) && LowOnly(s, s.current)
    ensures next in s.procs && next != s.current && ExitStep(s, next) == Run(RemoveProc(s, s.current), next)
  {
    hide Owned, Tiled, Lookup, CleanStack, LowOnly, Recycled, DirEntry;
    assert ProcOk(s, s.current);
    RecycledOnce(s, s.current);
    assert (set f | f in Recycled(s, s.current)) == Owned(s, s.current);
  }

  // -------------------------------------------------------- calls that do harm

  /** Physical memory opened in the stack window, which the code does not keep anyone
      from: when the process ends, that page goes back once more than the process owns
      it. */
  lemma OpenedInStack(s: Sys, frame: Frame, ecx: nat, t: Frame)
    requires CanOpen(s, ecx, t) && STACK_LOW <= PageOf(ecx) < USER_PAGES && Lookup(s, s.current, PageOf(ecx)) == Absent
    ensures var u, p := OpenStep(s, frame, ecx, t), s.current;
            && Inv(u) && p in u.procs && !CleanStack(u, p)
            && frame in StackMarks(u, p) && Recycled(u, p)[frame] > multiset(Owned(u, p) - High(u, p))[frame]
            && (LowOnly(u, p) ==> Recycled(u, p) != multiset(Owned(u, p)))
  {
    hide Recycled, Owned, High, LowOnly, DirEntry, Tiled, StackMarks;
    var u, p, v := OpenStep(s, frame, ecx, t), s.current, PageOf(ecx);
    OpenKeeps(s, frame, ecx, t);
    OpenedThere(s, frame, ecx, t);
    CurrentOk(u);
    RecycledOnce(u, p);
    MarkInStack(u, p, v);
  }

  lemma OpenedThere(s: Sys, frame: Frame, ecx: nat, t: Frame)
    requires CanOpen(s, ecx, t) && Lookup(s, s.current, PageOf(ecx)) == Absent && Inv(OpenStep(s, frame, ecx, t))
    ensures var u := OpenStep(s, frame, ecx, t);
            u.current == s.current && Lookup(u, s.current, PageOf(ecx)) == Page(frame, true)
  {
    hide Lookup, DirEntry, Wf, Tiled, ProcOk;
    EnsureKeeps(s, s.current, PageOf(ecx), t);
    var s1 := EnsureTable(s, s.current, PageOf(ecx), t);
    OpenPhysicalKeeps(s1, s.current, PageOf(ecx), frame);
    Unmapped(SetPte(s1, s.current, PageOf(ecx), Page(frame, true)), OpenStep(s, frame, ecx, t));
  }

  /** Where a page allocated in an empty entry is: at every address that leads to that
      entry. */
  lemma AllocatedAt(s: Sys, ecx: nat, t: Frame, g: Frame)
    requires CanAlloc(s, ecx, t, g) && Lookup(s, s.current, PageOf(ecx)) == Absent
    ensures var u, v := AllocStep(s, ecx, t, g), PageOf(ecx);
            && Wf(u) && u.procs.Keys == s.procs.Keys && u.current == s.current
            && (Sole(s, s.current, v / ENTRIES) || !Tiled(u))
            && Lookup(u, s.current, v) == Page(g, false)
            && (forall q :: SameFrame(DirEntry(s, s.current, v / ENTRIES), DirEntry(s, q, v / ENTRIES)) ==>
                  Lookup(u, q, v) == Page(g, false))
            && (forall q, w: nat :: w < USER_PAGES && v >= USER_PAGES ==> Lookup(u, q, w) == Lookup(s, q, w))
            && (forall q, i: nat :: i < USER_TABLES && v >= USER_PAGES ==> DirEntry(u, q, i) == DirEntry(s, q, i))
  {
    hide Lookup, DirEntry, Wf, Tiled, ProcOk, Sole, WithTable;
    var cur, v, u := s.current, PageOf(ecx), AllocStep(s, ecx, t, g);
    EnsureKeeps(s, cur, v, t);
    MadeAt(s, cur, v, t);
    var s1 := EnsureTable(s, cur, v, t);
    TiledTablesApart(s1);
    MapShared(s1, cur, v, g);
    var s2 := MapFree(s1, cur, v, g);
    Unmapped(s2, u);
    if !Sole(s1, cur, v / ENTRIES) { NotTiledEither(s2, u); }
    forall q, w: nat | w < USER_PAGES && v >= USER_PAGES
      ensures Lookup(u, q, w) == Lookup(s, q, w)
    {
      OneTable(s1, cur, v, q, w);
    }
  }

  /** A table made on demand is the only change in the directories. */
  lemma MadeAt(s: Sys, p: Pid, v: nat, t: Frame)
    requires Wf(s) && Tiled(s) && p in s.procs && v < ALL_PAGES && TableReady(s, p, v, t)
    ensures forall q, i :: !(q == p && i == v / ENTRIES && DirEntry(s, p, i) == Absent) ==>
              DirEntry(EnsureTable(s, p, v, t), q, i) == DirEntry(s, q, i)
    ensures !Sole(s, p, v / ENTRIES) ==> !Sole(EnsureTable(s, p, v, t), p, v / ENTRIES)
  {
    if DirEntry(s, p, v / ENTRIES) == Absent {
      TableAdded(s, p, v / ENTRIES, t);
    }
  }

  lemma NotTiledEither(s: Sys, u: Sys)
    requires Wf(s) && u.tables == s.tables && SameSpaces(s, u) && u.free == s.free && SameHoldings(s, u) && !Tiled(s)
    ensures Wf(u) && !Tiled(u)
  {
    hide Lookup, DirEntry, InRing;
    Unmapped(s, u);
    if Tiled(u) {
      forall f, a
        ensures HeldAt(s, f, a) <==> HeldAt(u, f, a)
      {
      }
      SameTiled(u, s);
    }
  }

  /** After ALLOC_MEMORY every page has one owner exactly if the entry it was to fill was
      taken, or in a table to which no other directory entry leads. Below PAGE_OFFSET that is
      always so; the tables of the kernel all processes share. */
  lemma AllocShares(s: Sys, ecx: nat, t: Frame, g: Frame)
    requires CanAlloc(s, ecx, t, g)
    ensures var u := AllocStep(s, ecx, t, g);
            Wf(u) && (Tiled(u) <==> Private(s, ecx)) && (Inv(u) <==> Private(s, ecx))
    ensures ecx < 0xC000_0000 ==> Private(s, ecx)
  {
    hide AllocStep, Tiled, Lookup, DirEntry, Sole;
    if Private(s, ecx) {
      AllocKeeps(s, ecx, t, g);
    } else {
      AllocatedAt(s, ecx, t, g);
      if ecx < 0xC000_0000 { LowSole(s, s.current, PageOf(ecx)); }
    }
  }

  lemma LowSole(s: Sys, p: Pid, v: nat)
    requires Wf(s) && Tiled(s) && p in s.procs && v < USER_PAGES
    ensures Sole(s, p, v / ENTRIES)
  {
    assert WfProc(s, p);
    TiledTablesApart(s);
  }

  /** A page allocated at PAGE_OFFSET or above: no process hands it back when it ends, but
      for a mark in its stack window, and it is mapped in every process whose directory leads
      to the same table, as that of any process created afterwards does. */
  lemma AllocatedHigh(s: Sys, ecx: nat, t: Frame, g: Frame)
    requires CanAlloc(s, ecx, t, g) && PageOf(ecx) >= USER_PAGES && Lookup(s, s.current, PageOf(ecx)) == Absent
    ensures var u, p, v := AllocStep(s, ecx, t, g), s.current, PageOf(ecx);
            && Wf(u) && u.procs.Keys == s.procs.Keys && p in s.procs && Lookup(u, p, v) == Page(g, false) && !LowOnly(u, p)
            && (forall q :: SameFrame(DirEntry(s, p, v / ENTRIES), DirEntry(s, q, v / ENTRIES)) ==> Lookup(u, q, v) == Page(g, false))
            && (forall q :: q in s.procs && g !in StackMarks(s, q) ==> g !in Recycled(u, q))
            && (forall q, c, th, t2, g2 :: CanCreate(u, q, c, th, t2, g2) ==>
                  var w := CreateStep(u, q, c, th, t2, g2);
                  Wf(w) && !Tiled(w) && Lookup(w, p, v) == Lookup(w, q, v) == Page(g, false))
  {
    hide Recycled, StackMarks, Tiled, CreateStep, AllocStep, DirEntry, Lookup;
    var u, p, v := AllocStep(s, ecx, t, g), s.current, PageOf(ecx);
    AllocatedAt(s, ecx, t, g);
    CurrentOk(s);
    forall q | q in s.procs && g !in StackMarks(s, q)
      ensures g !in Recycled(u, q)
    {
      NeverBack(s, ecx, t, g, q);
    }
    forall q, c, th, t2, g2 | CanCreate(u, q, c, th, t2, g2)
      ensures var w := CreateStep(u, q, c, th, t2, g2);
              Wf(w) && !Tiled(w) && Lookup(w, p, v) == Lookup(w, q, v) == Page(g, false)
    {
      CreateShares(u, q, c, th, t2, g2);
      CreatedUpper(u, q, c, th, t2, g2, v);
    }
  }

  lemma NeverBack(s: Sys, ecx: nat, t: Frame, g: Frame, q: Pid)
    requires CanAlloc(s, ecx, t, g) && PageOf(ecx) >= USER_PAGES && Lookup(s, s.current, PageOf(ecx)) == Absent
    requires q in s.procs && g !in StackMarks(s, q)
    ensures var u := AllocStep(s, ecx, t, g); Wf(u) && q in u.procs && g !in Recycled(u, q)
  {
    hide Recycled, StackMarks, Tiled, DirEntry, Lookup;
    var u := AllocStep(s, ecx, t, g);
    AllocatedAt(s, ecx, t, g);
    assert ProcOk(s, q);
    EnsureKeeps(s, s.current, PageOf(ecx), t);
    FreeNotRecycled(s, q, g);
    RecycledKept(s, u, q);
  }

  // ------------------------------------------------------------------ whole runs

  ghost predicate Enabled(s: Sys, e: Step) {
    match e
    case Send(edx, ecx, ebx, t, g) => CanSend(s, edx, ecx, t, g)
    case Receive(ecx, t, next) => CanReceive(s, ecx, t, next)
    case Interrupt(p, t, g) => CanInterrupt(s, p, t, g)
    case AllocMemory(ecx, t, g) => CanAlloc(s, ecx, t, g)
    case OpenPhysical(frame, ecx, t) => CanOpen(s, ecx, t)
    case GrowStack(v, t, g) => CanGrow(s, v, t, g)
    case Switch(next) => CanSwitch(s, next)
    case Create(p, cr3, thread, t, g) => CanCreate(s, p, cr3, thread, t, g)
    case Exit(next) => CanExit(s, next)
  }

  ghost function Next(s: Sys, e: Step): Sys
    requires Enabled(s, e)
  {
    match e
    case Send(edx, ecx, ebx, t, g) => SendStep(s, edx, ecx, ebx, t, g)
    case Receive(ecx, t, next) => ReceiveStep(s, ecx, t, next)
    case Interrupt(p, t, g) => InterruptStep(s, p, t, g)
    case AllocMemory(ecx, t, g) => AllocStep(s, ecx, t, g)
    case OpenPhysical(frame, ecx, t) => OpenStep(s, frame, ecx, t)
    case GrowStack(v, t, g) => GrowStep(s, v, t, g)
    case Switch(next) => SwitchStep(s, next)
    case Create(p, cr3, thread, t, g) => CreateStep(s, p, cr3, thread, t, g)
    case Exit(next) => ExitStep(s, next)
  }

  /** What the code does not look at: where a process has mapped memory when it exits or
      creates another one. */
  ghost predicate Harmless(s: Sys, e: Step)
    requires Wf(s)
  {
    match e
    case AllocMemory(ecx, _, _) => Private(s, ecx)
    case Create(_, _, _, _, _) => LowOnly(s, s.current)
    case Exit(_) => LowOnly(s, s.current) && CleanStack(s, s.current)
    case _ => true
  }

  lemma EnabledInv(s: Sys, e: Step)
    requires Enabled(s, e)
    ensures Inv(s) && Wf(s)
  {
  }

  /** The invariant holds after every such step: each managed page has exactly one
      owner, no process waits with messages queued, and the registers agree. */
  lemma StepKeeps(s: Sys, e: Step)
    requires Enabled(s, e) && Wf(s) && Harmless(s, e)
    ensures Inv(Next(s, e)) && Next(s, e).managed == s.managed
  {
    hide Inv, Lookup, Tiled, Wf;
    match e {
      case Send(edx, ecx, ebx, t, g) => SendKeeps(s, edx, ecx, ebx, t, g);
      case Receive(ecx, t, next) => ReceiveKeeps(s, ecx, t, next);
      case Interrupt(p, t, g) => InterruptKeeps(s, p, t, g);
      case AllocMemory(ecx, t, g) => AllocKeeps(s, ecx, t, g);
      case OpenPhysical(frame, ecx, t) => OpenKeeps(s, frame, ecx, t);
      case GrowStack(v, t, g) => GrowKeeps(s, v, t, g);
      case Switch(next) => SwitchKeeps(s, next);
      case Create(p, cr3, thread, t, g) => CreateKeeps(s, p, cr3, thread, t, g);
      case Exit(next) => ExitKeeps(s, next);
    }
  }

  ghost predicate Trace(ss: seq<Sys>, es: seq<Step>) {
    |ss| == |es| + 1 && forall i :: 0 <= i < |es| ==> StepAt(ss, es, i)
  }

  ghost predicate StepAt(ss: seq<Sys>, es: seq<Step>, i: nat)
    requires i < |es| && |ss| == |es| + 1
  {
    Enabled(ss[i], es[i]) && Wf(ss[i]) && Harmless(ss[i], es[i]) && ss[i + 1] == Next(ss[i], es[i])
  }

  lemma {:induction false} TraceKeeps(ss: seq<Sys>, es: seq<Step>, n: nat)
    requires Trace(ss, es) && Inv(ss[0]) && n <= |es|
    ensures Inv(ss[n]) && ss[n].managed == ss[0].managed
  {
    hide Inv, Next, Enabled, Wf, Harmless;
    if n > 0 {
      TraceKeeps(ss, es, n - 1);
      assert StepAt(ss, es, n - 1);
      StepKeeps(ss[n - 1], es[n - 1]);
    }
  }

  /** Kernel tables with no page of a process's in them, and a directory of nothing else, as
      init_paging and init_apic leave them. */
  ghost predicate KernelSpace(managed: set<Frame>, kernel: map<Frame, seq<Pte>>, upper: Upper) {
    KernelWf(NoProcs(managed, kernel)) && KernelOnly(NoProcs(managed, kernel), upper)
  }

  ghost function NoProcs(managed: set<Frame>, kernel: map<Frame, seq<Pte>>): Sys {
    Sys(map[], kernel, managed, INIT, map[], managed, kernel.Keys)
  }

  ghost predicate BootPages(managed: set<Frame>, cr3: Frame, thread: Frame, t: Frame, g: Frame) {
    {cr3, thread, t, g} <= managed && FourDistinct(cr3, thread, t, g)
  }

  /** The machine as init_proc leaves it: one running process, init. */
  ghost function Boot(managed: set<Frame>, kernel: map<Frame, seq<Pte>>, upper: Upper,
                      cr3: Frame, thread: Frame, t: Frame, g: Frame): Sys
    requires BootPages(managed, cr3, thread, t, g) && KernelSpace(managed, kernel, upper)
  {
    BootTiled(managed, kernel, upper, cr3, thread, t, g);
    var s := AddProc(NoProcs(managed, kernel), INIT, cr3, thread, upper);
    Run(MapFree(WithTable(s, INIT, STACK_TOP_TABLE, t), INIT, STACK_TOP_PAGE, g), INIT)
  }

  lemma NoneYet(managed: set<Frame>, kernel: map<Frame, seq<Pte>>)
    requires KernelWf(NoProcs(managed, kernel))
    ensures Wf(NoProcs(managed, kernel)) && Tiled(NoProcs(managed, kernel))
  {
    var s0 := NoProcs(managed, kernel);
    forall f | f in managed
      ensures exists a :: HeldAt(s0, f, a)
    {
      assert HeldAt(s0, f, FreeList);
    }
  }

  lemma BootTiled(managed: set<Frame>, kernel: map<Frame, seq<Pte>>, upper: Upper,
                  cr3: Frame, thread: Frame, t: Frame, g: Frame)
    requires BootPages(managed, cr3, thread, t, g) && KernelSpace(managed, kernel, upper)
    ensures var s1 := AddProc(NoProcs(managed, kernel), INIT, cr3, thread, upper);
            && Wf(s1) && Tiled(s1) && DirEntry(s1, INIT, STACK_TOP_TABLE) == Absent
            && var s2 := WithTable(s1, INIT, STACK_TOP_TABLE, t);
               && Wf(s2) && Tiled(s2) && Lookup(s2, INIT, STACK_TOP_PAGE) == Absent && HasTable(s2, INIT, STACK_TOP_TABLE)
  {
    var s0 := NoProcs(managed, kernel);
    NoneYet(managed, kernel);
    AddProcKeeps(s0, INIT, cr3, thread, upper);
    TableAdded(AddProc(s0, INIT, cr3, thread, upper), INIT, STACK_TOP_TABLE, t);
  }

  lemma BootInv(managed: set<Frame>, kernel: map<Frame, seq<Pte>>, upper: Upper, cr3: Frame, thread: Frame, t: Frame, g: Frame)
    requires BootPages(managed, cr3, thread, t, g) && KernelSpace(managed, kernel, upper)
    ensures Inv(Boot(managed, kernel, upper, cr3, thread, t, g))
  {
    hide Boot, Wf, Tiled, Lookup, DirEntry, KernelSpace;
    var s := BootMapped(managed, kernel, upper, cr3, thread, t, g);
    RegistersKeep(s, Run(s, INIT));
  }

  lemma BootMapped(managed: set<Frame>, kernel: map<Frame, seq<Pte>>, upper: Upper, cr3: Frame, thread: Frame, t: Frame, g: Frame)
    returns (s: Sys)
    requires BootPages(managed, cr3, thread, t, g) && KernelSpace(managed, kernel, upper)
    ensures Wf(s) && Tiled(s) && s.procs == map[INIT := NewProc(cr3, thread)] && s.log == map[INIT := Log([], [])]
    ensures Boot(managed, kernel, upper, cr3, thread, t, g) == Run(s, INIT)
  {
    BootTiled(managed, kernel, upper, cr3, thread, t, g);
    var s1 := AddProc(NoProcs(managed, kernel), INIT, cr3, thread, upper);
    MapFreeKeeps(WithTable(s1, INIT, STACK_TOP_TABLE, t), INIT, STACK_TOP_PAGE, g);
    s := MapFree(WithTable(s1, INIT, STACK_TOP_TABLE, t), INIT, STACK_TOP_PAGE, g);
  }

  // ------------------------------------------------------- the table of the APIC

  /** What init_apic leaves in the directory before there is any process: a table with the
      registers of the two controllers, and nothing else in it. */
  const APIC_TABLE: nat := 1019
  const LOCAL_APIC_PAGE: nat := 512

  /** The page after the registers of the I/O APIC. */
  const FREE_ADDRESS: nat := 0xFEC0_1000

  function ApicEntries(io: Frame, local: Frame): (r: seq<Pte>)
    ensures |r| == ENTRIES
  {
    NoEntries()[0 := Page(io, true)][LOCAL_APIC_PAGE := Page(local, true)]
  }

  ghost predicate HasApic(kernel: map<Frame, seq<Pte>>, upper: Upper, io: Frame, local: Frame) {
    var e := upper[APIC_TABLE - USER_TABLES];
    e.Page? && e.frame in kernel && kernel[e.frame] == ApicEntries(io, local)
  }

  lemma BootParts(managed: set<Frame>, kernel: map<Frame, seq<Pte>>, upper: Upper, cr3: Frame, thread: Frame, t: Frame, g: Frame)
    requires BootPages(managed, cr3, thread, t, g) && KernelSpace(managed, kernel, upper)
    ensures Boot(managed, kernel, upper, cr3, thread, t, g) ==
            Sys(map[INIT := NewProc(cr3, thread).(flag := 2)],
                kernel[cr3 := (NoTables() + upper)[STACK_TOP_TABLE := Page(t, false)]]
                      [t := NoEntries()[ENTRIES - 1 := Page(g, false)]],
                managed - {cr3, thread, t, g}, INIT, map[INIT := Log([], [])], managed, kernel.Keys)
  {
    hide Lookup, Tiled;
    BootTiled(managed, kernel, upper, cr3, thread, t, g);
    StackMade(AddProc(NoProcs(managed, kernel), INIT, cr3, thread, upper), INIT, cr3, t, g);
  }

  lemma LowStays(s: Sys, u: Sys, p: Pid)
    requires LowOnly(s, p) && u.kernel == s.kernel
    requires forall i: nat :: i >= USER_TABLES ==> DirEntry(u, p, i) == DirEntry(s, p, i)
    requires forall v: nat :: v >= USER_PAGES ==> Lookup(u, p, v) == Lookup(s, p, v)
    ensures LowOnly(u, p)
  {
    hide Lookup, DirEntry;
    forall i: nat | i >= USER_TABLES
      ensures !HasTable(u, p, i)
    {
      assert !HasTable(s, p, i);
    }
    forall v: nat | v >= USER_PAGES && Lookup(u, p, v).Page?
      ensures Lookup(u, p, v).phy
    {
      assert Lookup(u, p, v) == Lookup(s, p, v);
    }
  }

  lemma BootLowOnly(managed: set<Frame>, kernel: map<Frame, seq<Pte>>, upper: Upper, cr3: Frame, thread: Frame, t: Frame, g: Frame)
    requires BootPages(managed, cr3, thread, t, g) && KernelSpace(managed, kernel, upper)
    ensures LowOnly(Boot(managed, kernel, upper, cr3, thread, t, g), INIT)
  {
    hide Lookup, DirEntry, Tiled, Wf, LowOnly;
    BootTiled(managed, kernel, upper, cr3, thread, t, g);
    var s0 := NoProcs(managed, kernel);
    NoneYet(managed, kernel);
    AddProcKeeps(s0, INIT, cr3, thread, upper);
    var s1 := AddProc(s0, INIT, cr3, thread, upper);
    TableAdded(s1, INIT, STACK_TOP_TABLE, t);
    var s2 := WithTable(s1, INIT, STACK_TOP_TABLE, t);
    LowStays(s1, s2, INIT);
    MapFreeKeeps(s2, INIT, STACK_TOP_PAGE, g);
    var s3 := MapFree(s2, INIT, STACK_TOP_PAGE, g);
    LowStays(s2, s3, INIT);
    RegistersKeep(s3, Run(s3, INIT));
    LowStays(s3, Run(s3, INIT), INIT);
  }

  lemma BootLow(managed: set<Frame>, kernel: map<Frame, seq<Pte>>, upper: Upper, cr3: Frame, thread: Frame, t: Frame, g: Frame)
    requires BootPages(managed, cr3, thread, t, g) && KernelSpace(managed, kernel, upper)
    ensures var s := Boot(managed, kernel, upper, cr3, thread, t, g);
            && Inv(s) && LowOnly(s, INIT) && INIT in s.procs && s.current == INIT && s.procs.Keys == {INIT}
            && s.free == managed - {cr3, thread, t, g}
            && (forall i: nat :: USER_TABLES <= i < ENTRIES ==> DirEntry(s, INIT, i) == upper[i - USER_TABLES])
            && (forall f :: f in kernel ==> f in s.tables && s.tables[f] == kernel[f])
  {
    hide Lookup, Tiled, KernelSpace;
    BootTiled(managed, kernel, upper, cr3, thread, t, g);
    BootInv(managed, kernel, upper, cr3, thread, t, g);
    BootLowOnly(managed, kernel, upper, cr3, thread, t, g);
    BootParts(managed, kernel, upper, cr3, thread, t, g);
  }

  predicate Distinct(pages: seq<Frame>) { forall i, j :: 0 <= i < j < |pages| ==> pages[i] != pages[j] }

  lemma ApicEmpty(kernel: map<Frame, seq<Pte>>, upper: Upper, io: Frame, local: Frame, s: Sys)
    requires HasApic(kernel, upper, io, local) && DirEntry(s, INIT, APIC_TABLE) == upper[APIC_TABLE - USER_TABLES]
    requires forall f :: f in kernel ==> f in s.tables && s.tables[f] == kernel[f]
    ensures DirEntry(s, INIT, PageOf(FREE_ADDRESS) / ENTRIES).Page? && Lookup(s, INIT, PageOf(FREE_ADDRESS)) == Absent
  {
    hide DirEntry;
    assert PageOf(FREE_ADDRESS) / ENTRIES == APIC_TABLE && PageOf(FREE_ADDRESS) % ENTRIES == 1;
  }

  lemma MappedThere(s: Sys, p: Pid, v: nat)
    requires Wf(s) && p in s.procs && DirEntry(s, p, v / ENTRIES).Page?
    ensures TableReady(s, p, v, 0) && (v < ALL_PAGES ==> EnsureTable(s, p, v, 0) == s)
    ensures forall q :: q != p && DirEntry(s, q, v / ENTRIES) == DirEntry(s, p, v / ENTRIES) ==> !Sole(s, p, v / ENTRIES)
  {
    hide DirEntry, Wf;
    forall q | q != p && DirEntry(s, q, v / ENTRIES) == DirEntry(s, p, v / ENTRIES)
      ensures !Sole(s, p, v / ENTRIES)
    {
      assert SameFrame(DirEntry(s, p, v / ENTRIES), DirEntry(s, q, v / ENTRIES));
    }
  }

  lemma CreatedFree(s: Sys, p: Pid, cr3: Frame, thread: Frame, t: Frame, g: Frame)
    requires CanCreate(s, p, cr3, thread, t, g)
    ensures var u := CreateStep(s, p, cr3, thread, t, g);
            u.free == s.free - {cr3, thread, t, g} && u.current == s.current && u.procs.Keys == s.procs.Keys + {p}
  {
  }

  lemma FreshPages(managed: set<Frame>, x: seq<Frame>)
    requires |x| == 9 && Distinct(x) && forall i :: 0 <= i < 9 ==> x[i] in managed
    ensures BootPages(managed, x[0], x[1], x[2], x[3])
    ensures {x[4], x[5], x[6], x[7], x[8]} <= managed - {x[0], x[1], x[2], x[3]}
    ensures FourDistinct(x[4], x[5], x[6], x[7]) && x[8] !in {x[4], x[5], x[6], x[7]}
  {
  }

  /** A run to a page with two owners: init creates a process, and allocates a page where
      the APIC's table has an empty entry. */
  lemma ApicShared(managed: set<Frame>, kernel: map<Frame, seq<Pte>>, upper: Upper, io: Frame, local: Frame, x: seq<Frame>)
    requires KernelSpace(managed, kernel, upper) && HasApic(kernel, upper, io, local)
    requires |x| == 9 && Distinct(x) && forall i :: 0 <= i < 9 ==> x[i] in managed
    ensures BootPages(managed, x[0], x[1], x[2], x[3])
    ensures var s := Boot(managed, kernel, upper, x[0], x[1], x[2], x[3]);
            && CanCreate(s, 1, x[4], x[5], x[6], x[7]) && Wf(s) && Harmless(s, Create(1, x[4], x[5], x[6], x[7]))
            && var u := CreateStep(s, 1, x[4], x[5], x[6], x[7]);
               && CanAlloc(u, FREE_ADDRESS, 0, x[8])
               && var w := AllocStep(u, FREE_ADDRESS, 0, x[8]);
                  Wf(w) && Lookup(w, INIT, PageOf(FREE_ADDRESS)) == Lookup(w, 1, PageOf(FREE_ADDRESS)) == Page(x[8], false) && !Tiled(w)
  {
    hide Lookup, DirEntry, Wf, Tiled, Boot, CreateStep, AllocStep, KernelSpace, LowOnly, ProcOk;
    FreshPages(managed, x);
    BootLow(managed, kernel, upper, x[0], x[1], x[2], x[3]);
    var s, v := Boot(managed, kernel, upper, x[0], x[1], x[2], x[3]), PageOf(FREE_ADDRESS);
    CreateKeeps(s, 1, x[4], x[5], x[6], x[7]);
    CreatedUpper(s, 1, x[4], x[5], x[6], x[7], v);
    var u := CreateStep(s, 1, x[4], x[5], x[6], x[7]);
    CreatedFree(s, 1, x[4], x[5], x[6], x[7]);
    ApicEmpty(kernel, upper, io, local, s);
    MappedThere(u, INIT, v);
    AllocatedAt(u, FREE_ADDRESS, 0, x[8]);
  }

  // ------------------------------------------- exactly once, first in, first out

  /** An accepted send joins the newest end of its receiver's log, and leaves every
      other log alone. */
  lemma AcceptedLog(s: Sys, edx: Pid, ecx: nat, ebx: int, t: Frame, g: Frame)
    requires CanSend(s, edx, ecx, t, g) && HasPage(s, ecx) && Listed(s, edx)
    requires s.procs[edx].receiving > 0 || |s.procs[edx].queue| < MAX_MESSAGES
    ensures var u := SendStep(s, edx, ecx, ebx, t, g);
            && edx in u.log && u.log == s.log[edx := Log(s.log[edx].accepted + [Parcel(s, ecx, ebx)], u.log[edx].received)]
            && u.log[edx].received == if s.procs[edx].receiving > 0 then u.log[edx].accepted else s.log[edx].received
  {
    hide Lookup, DirEntry, Wf, Tiled, WfProc, KernelWf, IsTable;
    assert ProcOk(s, edx);
    if s.procs[edx].receiving > 0 {
      DeliverKeeps(s, edx, PageOf(ecx), Parcel(s, ecx, ebx).sender, t, g);
    } else {
      PostToKeeps(s, edx, PageOf(ecx), Parcel(s, ecx, ebx).sender, g);
    }
  }

  /** Where the page of an accepted send is. */
  ghost function NewPlace(s: Sys, edx: Pid): Place
    requires edx in s.procs && edx in s.log
  {
    if s.procs[edx].receiving > 0 then Mapped(edx, s.procs[edx].cx) else Slot(edx, |s.log[edx].accepted|)
  }

  lemma AxHolds(s: Sys, p: Pid, x: int, f: Frame, a: Place)
    requires Inv(s) && p in s.procs && HeldAt(s, f, a)
    ensures Inv(SetAx(s, p, x)) && HeldAt(SetAx(s, p, x), f, a)
  {
    hide WfProc, KernelWf, IsTable, Lookup, DirEntry;
    AxKeeps(s, p, x);
    RegistersKeep(s, SetAx(s, p, x));
  }

  lemma DeliveredThere(s: Sys, edx: Pid, ecx: nat, ebx: int, t: Frame, g: Frame)
    requires CanSend(s, edx, ecx, t, g) && HasPage(s, ecx) && Listed(s, edx) && s.procs[edx].receiving > 0
    ensures var u := SendStep(s, edx, ecx, ebx, t, g);
            Inv(u) && HeldAt(u, Parcel(s, ecx, ebx).frame, NewPlace(s, edx)) && edx != s.current
  {
    hide Deliver, Lookup, DirEntry, Wf, ProcOk, Waiting, Tiled, TableReady, HasTable;
    NotWaiting(s);
    var d := Deliver(s, edx, PageOf(ecx), Parcel(s, ecx, ebx).sender, t, g);
    DeliverKeeps(s, edx, PageOf(ecx), Parcel(s, ecx, ebx).sender, t, g);
    AxHolds(d, s.current, 1, Parcel(s, ecx, ebx).frame, NewPlace(s, edx));
  }

  lemma PostedThere(s: Sys, edx: Pid, ecx: nat, ebx: int, t: Frame, g: Frame)
    requires CanSend(s, edx, ecx, t, g) && HasPage(s, ecx) && Listed(s, edx)
    requires s.procs[edx].receiving == 0 && |s.procs[edx].queue| < MAX_MESSAGES
    ensures var u := SendStep(s, edx, ecx, ebx, t, g);
            Inv(u) && HeldAt(u, Parcel(s, ecx, ebx).frame, NewPlace(s, edx))
  {
    SendKeeps(s, edx, ecx, ebx, t, g);
    AcceptedLog(s, edx, ecx, ebx, t, g);
    assert ProcOk(s, edx);
  }

  /** Its page is in one new place, so no longer mapped anywhere in the sender. */
  lemma SentAway(s: Sys, edx: Pid, ecx: nat, ebx: int, t: Frame, g: Frame, v: nat)
    requires CanSend(s, edx, ecx, t, g) && HasPage(s, ecx) && Listed(s, edx)
    requires s.procs[edx].receiving > 0 || |s.procs[edx].queue| < MAX_MESSAGES
    ensures var u := SendStep(s, edx, ecx, ebx, t, g);
            && Wf(u) && HeldAt(u, Parcel(s, ecx, ebx).frame, NewPlace(s, edx))
            && Lookup(u, s.current, v) != Lookup(s, s.current, PageOf(ecx))
  {
    hide WfProc, KernelWf, IsTable;
    var u, f := SendStep(s, edx, ecx, ebx, t, g), Parcel(s, ecx, ebx).frame;
    if s.procs[edx].receiving > 0 {
      DeliveredThere(s, edx, ecx, ebx, t, g);
    } else {
      PostedThere(s, edx, ecx, ebx, t, g);
    }
    assert Lookup(s, s.current, PageOf(ecx)) == Page(f, false);
    hide Lookup, Deliver, PostTo, SendStep, DirEntry, ProcOk;
    assert Lookup(u, s.current, v) == Page(f, false) <==> HeldAt(u, f, Mapped(s.current, v));
  }

  /** send returns 1 exactly when the message was accepted; otherwise nothing but
      the result register changed. */
  lemma SendAccepts(s: Sys, edx: Pid, ecx: nat, ebx: int, t: Frame, g: Frame)
    requires CanSend(s, edx, ecx, t, g)
    ensures var u := SendStep(s, edx, ecx, ebx, t, g);
            && s.current in u.procs
            && (u.procs[s.current].ax == 1 <==>
                  HasPage(s, ecx) && Listed(s, edx)
                  && (s.procs[edx].receiving > 0 || |s.procs[edx].queue| < MAX_MESSAGES))
            && (u.procs[s.current].ax != 1 ==> u == SetAx(s, s.current, u.procs[s.current].ax))
  {
    SendKeeps(s, edx, ecx, ebx, t, g);
  }

  /** receive hands over the oldest queued message, sender and page; with none
      queued the process waits, and the next message goes to it directly. */
  lemma ReceiveGets(s: Sys, ecx: nat, t: Frame, next: Pid)
    requires CanReceive(s, ecx, t, next) && GoodAddress(ecx)
    requires Lookup(s, s.current, PageOf(ecx)).Page? ==> !Lookup(s, s.current, PageOf(ecx)).phy
    ensures var u, p := ReceiveStep(s, ecx, t, next), s.current;
            && p in u.procs && Wf(u)
            && (s.procs[p].queue != [] ==>
                  var m := s.procs[p].queue[0];
                  && u.procs[p].ax == m.sender && Lookup(u, p, PageOf(ecx)) == Page(m.frame, false)
                  && u.log == s.log[p := Log(s.log[p].accepted, s.log[p].received + [m])])
            && (s.procs[p].queue == [] ==>
                  && u.procs[p].receiving == 1 && Waiting(u, p) && u.log == s.log && u.current == next)
  {
    ReceiveKeeps(s, ecx, t, next);
    if s.procs[s.current].queue != [] {
      FetchGets(s, ecx, t, next);
    } else {
      SleepWaits(s, ecx, t, next);
    }
  }

  /** The state in which the oldest message is fetched: nothing is mapped at the address,
      and its table is there. */
  lemma FetchParts(s: Sys, ecx: nat, t: Frame, next: Pid) returns (u: Sys)
    requires CanReceive(s, ecx, t, next) && GoodAddress(ecx) && s.procs[s.current].queue != []
    requires Lookup(s, s.current, PageOf(ecx)).Page? ==> !Lookup(s, s.current, PageOf(ecx)).phy
    ensures Wf(u) && Tiled(u) && u == s.(tables := u.tables, free := u.free)
    ensures HasTable(u, s.current, PageOf(ecx) / ENTRIES) && Lookup(u, s.current, PageOf(ecx)) == Absent
    ensures ReceiveStep(s, ecx, t, next) == SetAx(Fetch(u, s.current, PageOf(ecx)), s.current, s.procs[s.current].queue[0].sender)
  {
    ClearedKeeps(s, PageOf(ecx));
    EnsureKeeps(Cleared(s, PageOf(ecx)), s.current, PageOf(ecx), t);
    u := EnsureTable(Cleared(s, PageOf(ecx)), s.current, PageOf(ecx), t);
  }

  lemma FetchGets(s: Sys, ecx: nat, t: Frame, next: Pid)
    requires CanReceive(s, ecx, t, next) && GoodAddress(ecx) && s.procs[s.current].queue != []
    requires Lookup(s, s.current, PageOf(ecx)).Page? ==> !Lookup(s, s.current, PageOf(ecx)).phy
    ensures var u, p, m := ReceiveStep(s, ecx, t, next), s.current, s.procs[s.current].queue[0];
            && p in u.procs && p in s.log && u.procs[p].ax == m.sender && u.procs[p].queue == s.procs[p].queue[1..]
            && Wf(u) && Lookup(u, p, PageOf(ecx)) == Page(m.frame, false)
            && u.log == s.log[p := Log(s.log[p].accepted, s.log[p].received + [m])]
  {
    hide ReceiveStep, Tiled, Lookup, DirEntry, Wf, TableReady, Waiting, HasTable;
    CurrentOk(s);
    var s2 := FetchParts(s, ecx, t, next);
    FetchedAt(s2, s.current, PageOf(ecx));
  }

  lemma CurrentOk(s: Sys)
    requires Inv(s)
    ensures s.current in s.procs && s.current in s.log && Logged(s, s.current)
  {
    assert ProcOk(s, s.current);
  }

  lemma FetchedAt(s: Sys, p: Pid, v: nat)
    requires Wf(s) && Tiled(s) && p in s.procs && p in s.log && Logged(s, p) && s.procs[p].queue != []
    requires HasTable(s, p, v / ENTRIES) && Lookup(s, p, v) == Absent
    ensures var m := s.procs[p].queue[0];
            var u := SetAx(Fetch(s, p, v), p, m.sender);
            Wf(u) && Lookup(u, p, v) == Page(m.frame, false)
  {
    hide Lookup, DirEntry, Wf, Tiled, HasTable;
    FetchKeeps(s, p, v);
    Unmapped(Fetch(s, p, v), SetAx(Fetch(s, p, v), p, s.procs[p].queue[0].sender));
  }

  lemma SleepWaits(s: Sys, ecx: nat, t: Frame, next: Pid)
    requires CanReceive(s, ecx, t, next) && GoodAddress(ecx) && s.procs[s.current].queue == []
    requires Lookup(s, s.current, PageOf(ecx)).Page? ==> !Lookup(s, s.current, PageOf(ecx)).phy
    requires Inv(ReceiveStep(s, ecx, t, next))
    ensures var u, p := ReceiveStep(s, ecx, t, next), s.current;
            && p in u.procs && u.procs[p].receiving == 1 && Waiting(u, p) && u.log == s.log && u.current == next
  {
    hide Lookup, DirEntry, Wf, Tiled;
    var u, cur := ReceiveStep(s, ecx, t, next), s.current;
    ClearedKeeps(s, PageOf(ecx));
    assert u == Sleep(Cleared(s, PageOf(ecx)), PageOf(ecx), next);
    hide Cleared, ReceiveStep, Tiled, Lookup, DirEntry;
    assert ProcOk(s, cur) && ProcOk(u, cur);
  }
}
