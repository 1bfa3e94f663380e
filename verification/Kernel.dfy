// The process calls, statement by statement, on the kernel's tables
// (kernel/process/proc.c, kernel/process/page.c). Each call is the step of the same
// name of the process machine. A result of false stands for the halt in which the
// kernel ends when a page is needed and none is free.
module Kernel {
  import opened Options
  import opened Pages
  import opened Dispose
  import opened Ipc
  import opened Ring

  class Machine {
    /** The process table, by identifier. The queue of a record is what its ring spells
        out. */
    var procs: map<Pid, Proc>
    /** The message rings in the records, 256 slots with head, tail and count each. */
    var rings: map<Pid, Buffer<Msg>>
    var current: Pid
    /** The entries in every directory and page table. */
    var tables: map<Frame, seq<Pte>>
    var free: set<Frame>
    ghost var log: map<Pid, Log>
    ghost var managed: set<Frame>
    /** The frames of the kernel's tables. */
    ghost var kernel: set<Frame>
    /** Every page handed back by a disposal, as often as it was. */
    ghost var recycled: multiset<Frame>

    /** The state as the process machine sees it. */
    ghost function Abs(): Sys
      reads this
    {
      Sys(procs, tables, free, current, log, managed, kernel)
    }

    /** Every process's ring spells out the queue of its record. */
    ghost predicate Matched()
      reads this
    {
      Spell(rings, QueuesOf(procs))
    }

    /** Before there is any process: the kernel's tables, and all else free. */
    constructor (pages: set<Frame>, kernelTables: map<Frame, seq<Pte>>)
      ensures Abs() == NoProcs(pages, kernelTables) && Matched() && recycled == multiset{}
    {
      procs, rings, tables, free, current := map[], map[], kernelTables, pages, INIT;
      log, managed, kernel, recycled := map[], pages, kernelTables.Keys, multiset{};
      new;
      assert QueuesOf(procs) == map[];
    }

    /** The entry an address translates through. */
    method ReadPte(q: Pid, v: nat) returns (e: Pte)
      requires q in procs && v < ALL_PAGES && Wf(Abs())
      ensures e == Lookup(Abs(), q, v)
    {
      assert WfProc(Abs(), q);
      var pde := tables[procs[q].cr3][v / ENTRIES];
      if pde.Absent? {
        return Absent;
      }
      e := tables[pde.frame][v % ENTRIES];
    }

    /** `pte[va2pte(v)]=e`, where the table exists. */
    method WritePte(q: Pid, v: nat, e: Pte)
      requires Wf(Abs()) && DirEntry(Abs(), q, v / ENTRIES).Page?
      modifies this`tables
      ensures Abs() == SetPte(old(Abs()), q, v, e)
    {
      assert WfProc(Abs(), q);
      var pde := tables[procs[q].cr3][v / ENTRIES];
      tables := tables[pde.frame := tables[pde.frame][v % ENTRIES := e]];
    }

    /** ALLOC_PAGE: any free page. */
    method AllocPage() returns (r: Option<Frame>)
      modifies this`free
      ensures r.None? <==> old(free) == {}
      ensures r.None? ==> free == old(free)
      ensures r.Some? ==> r.value in old(free) && free == old(free) - {r.value}
    {
      if free == {} {
        return None;
      }
      var f :| f in free;
      free := free - {f};
      r := Some(f);
    }

    /** `if(*pde==0)`: a zeroed page becomes the table. */
    method MakeTable(q: Pid, v: nat) returns (ok: bool, ghost t: Frame)
      requires q in procs && v < ALL_PAGES && Wf(Abs())
      modifies this`tables, this`free
      ensures ok ==> TableReady(old(Abs()), q, v, t) && Abs() == EnsureTable(old(Abs()), q, v, t)
    {
      assert WfProc(Abs(), q);
      ok, t := true, 0;
      var pde := tables[procs[q].cr3][v / ENTRIES];
      if pde == Absent {
        var f := AllocPage();
        if f.None? {
          return false, 0;
        }
        t := f.value;
        tables := tables[procs[q].cr3 := tables[procs[q].cr3][v / ENTRIES := Page(f.value, false)]];
        tables := tables[f.value := NoEntries()];
      }
    }

    /** open_physical_page: -1 if the entry is taken. */
    method OpenPage(q: Pid, frame: Frame, v: nat, phy: bool) returns (ok: bool, r: int, ghost t: Frame)
      requires q in procs && v < ALL_PAGES && Wf(Abs()) && Tiled(Abs())
      modifies this`tables, this`free
      ensures ok ==>
                && TableReady(old(Abs()), q, v, t)
                && var s1 := EnsureTable(old(Abs()), q, v, t);
                   && Wf(s1) && DirEntry(s1, q, v / ENTRIES).Page?
                   && r == (if Lookup(s1, q, v) == Absent then 0 else -1)
                   && Abs() == (if r == 0 then SetPte(s1, q, v, Page(frame, phy)) else s1)
    {
      hide Tiled, EnsureTable, SetPte, Lookup, DirEntry, TableReady, Wf, HasTable;
      ghost var s0 := Abs();
      ok, t := MakeTable(q, v);
      r := 0;
      if !ok {
        return;
      }
      EnsureKeeps(s0, q, v, t);
      var e := ReadPte(q, v);
      if e != Absent {
        r := -1;
      } else {
        WritePte(q, v, Page(frame, phy));
      }
    }

    /** `regs.ax=x` of the running thread. */
    method Result(x: int)
      requires current in procs
      modifies this`procs
      ensures Abs() == SetAx(old(Abs()), current, x) && QueuesOf(procs) == old(QueuesOf(procs))
    {
      QueueSame(procs, current, procs[current].(ax := x));
      procs := procs[current := procs[current].(ax := x)];
    }

    /** `receiving--`, the sender in ax, threadAwake. */
    method WakeUp(q: Pid, sender: int, ghost m: Msg)
      requires q in procs && q in log && procs[q].receiving > 0 && m.sender == sender
      modifies this`procs, this`log
      ensures Abs() == Wake(old(Abs()), q, m) && QueuesOf(procs) == old(QueuesOf(procs))
    {
      var p := procs[q];
      p := p.(receiving := p.receiving - 1, ax := sender);
      p := p.(threadFlag := 0, avl := p.avl + 1);
      if p.flag == 1 {
        p := p.(flag := 0);
      }
      QueueSame(procs, q, p);
      procs := procs[q := p];
      log := log[q := Log(log[q].accepted + [m], log[q].received + [m])];
    }

    /** The sender's page f at page number v goes to the waiting receiver's address,
        and a fresh page takes its entry. */
    method DeliverTo(q: Pid, v: nat, f: Frame, sender: int) returns (ok: bool, ghost t: Frame, ghost g: Frame)
      requires Inv(Abs()) && q in procs && procs[q].receiving > 0 && v < USER_PAGES
      requires Lookup(Abs(), current, v) == Page(f, false)
      modifies this`procs, this`log, this`tables, this`free
      ensures ok ==> CanDeliver(old(Abs()), q, t, g) && Abs() == Deliver(old(Abs()), q, v, sender, t, g)
      ensures ok ==> QueuesOf(procs) == old(QueuesOf(procs))
    {
      hide Tiled, EnsureTable, Lookup, DirEntry, TableReady, Wf, Deliver, Wake, Inv, HasTable;
      ghost var s0 := Abs();
      ReceiverReady(s0, q);
      g := 0;
      var r;
      ok, r, t := OpenPage(q, f, procs[q].cx, false);
      if !ok {
        return;
      }
      var page := AllocPage();
      if page.None? {
        return false, t, 0;
      }
      g := page.value;
      EnsureKeeps(s0, q, s0.procs[q].cx, t);
      DeliverParts(s0, q, v, sender, t, g);
      WritePte(current, v, Page(page.value, false));
      WakeUp(q, sender, Msg(sender, f));
    }

    /** `*msgHead=m; msgHead++;` around the end, `msgCount++`. */
    method PutMessage(q: Pid, m: Msg)
      requires q in rings && Sound(rings[q]) && rings[q].count < MAX_MESSAGES
      modifies this`rings
      ensures q in rings && rings == old(rings)[q := rings[q]] && rings[q] == Pushed(old(rings)[q], m)
      ensures Sound(rings[q]) && Queue(rings[q]) == Queue(old(rings)[q]) + [m]
    {
      hide Index, Queue;
      PushedQueue(rings[q], m);
      var b := rings[q];
      b := b.(messages := b.messages[b.head := m]);
      b := b.(head := b.head + 1);
      if b.head == CAPACITY {
        b := b.(head := 0);
      }
      b := b.(count := b.count + 1);
      rings := rings[q := b];
    }

    /** `m=*msgTail; msgTail++;` around the end, `msgCount--`. */
    method TakeMessage(q: Pid) returns (m: Msg)
      requires q in rings && Sound(rings[q]) && rings[q].count > 0
      modifies this`rings
      ensures q in rings && rings == old(rings)[q := rings[q]] && rings[q] == Popped(old(rings)[q])
      ensures Sound(rings[q]) && [m] + Queue(rings[q]) == Queue(old(rings)[q])
    {
      hide Index, Queue;
      PoppedQueue(rings[q]);
      var b := rings[q];
      m := b.messages[b.tail];
      b := b.(tail := b.tail + 1);
      if b.tail == CAPACITY {
        b := b.(tail := 0);
      }
      b := b.(count := b.count - 1);
      rings := rings[q := b];
    }

    /** `msgCount=0`, both pointers at the start of the buffer, whatever is in it. */
    method OpenRing(q: Pid)
      modifies this`rings
      ensures q in rings && rings == old(rings)[q := rings[q]] && Sound(rings[q]) && Queue(rings[q]) == []
    {
      assert |seq(CAPACITY, _ => Msg(0, 0))| == CAPACITY;
      var messages: seq<Msg> :| |messages| == CAPACITY;
      rings := rings[q := Buffer(messages, 0, 0, 0)];
    }

    /** The sender's page at v joins the ring, and a fresh page takes its entry. */
    method PostPage(q: Pid, v: nat, f: Frame, sender: int) returns (ok: bool, ghost g: Frame)
      requires Inv(Abs()) && Matched() && q in procs && v < USER_PAGES && Lookup(Abs(), current, v) == Page(f, false)
      requires |procs[q].queue| < MAX_MESSAGES
      modifies this
      ensures Matched()
      ensures ok ==> g in old(free) && Abs() == PostTo(old(Abs()), q, v, sender, g)
    {
      hide Inv, Wf, Tiled, Lookup, DirEntry, HasTable, PostTo, SetPte, ProcOk, Listed, QueuesOf, Spell;
      ghost var s0 := Abs();
      PostPossible(s0, q, v);
      var m := Msg(sender, f);
      ghost var was := rings;
      SpellAt(rings, procs, q);
      PutMessage(q, m);
      SpellSet(was, procs, q, rings[q], procs[q].(queue := procs[q].queue + [m]));
      procs := procs[q := procs[q].(queue := procs[q].queue + [m])];
      log := log[q := log[q].(accepted := log[q].accepted + [m])];
      var page := AllocPage();
      if page.None? {
        return false, 0;
      }
      ok, g := true, page.value;
      PostParts(s0, q, v, sender, g);
      WritePte(current, v, Page(page.value, false));
    }

    /** getProcessById: the scan starts after init, the process the table hangs
        from. */
    method GetProcessById(id: Pid) returns (r: Option<Pid>)
      ensures r == if Listed(Abs(), id) then Some(id) else None
    {
      r := if id in procs && id != INIT then Some(id) else None;
    }

    /** SYSCALL_SEND. */
    method Send(edx: Pid, ecx: nat, ebx: int) returns (ok: bool, ghost t: Frame, ghost g: Frame)
      requires Inv(Abs()) && Matched()
      modifies this
      ensures ok ==> CanSend(old(Abs()), edx, ecx, t, g) && Abs() == SendStep(old(Abs()), edx, ecx, ebx, t, g) && Matched()
    {
      hide Inv, Wf, Tiled, Lookup, DirEntry, HasTable, Deliver, PostTo, EnsureTable, TableReady, CanDeliver, ProcOk, QueuesOf, Spell;
      ghost var s0 := Abs();
      ok, t, g := true, 0, 0;
      CurrentHas(s0);
      var sender := if ebx == 0 then current else ebx;
      if ecx < 0xC000_0000 && ecx % 0x1000 == 0 {
        var v := ecx / 0x1000;
        var page := ReadPte(current, v);
        if page.Page? && !page.phy {
          var p := GetProcessById(edx);
          if p.None? {
            Result(MINUS_ONE);
            return;
          }
          if procs[edx].receiving > 0 {
            ok, t, g := DeliverTo(edx, v, page.frame, sender);
            if !ok { return; }
            DeliverKeeps(s0, edx, v, sender, t, g);
          } else {
            SpellAt(rings, procs, edx);
            if rings[edx].count < MAX_MESSAGES {
              ok, g := PostPage(edx, v, page.frame, sender);
              if !ok { return; }
              PostToKeeps(s0, edx, v, sender, g);
            } else {
              Result(0);
              return;
            }
          }
          CurrentHas(Abs());
          Result(1);
          return;
        }
      }
      Result(NO_ADDRESS);
    }

    /** schedule, as far as the table goes: some ready process takes the CPU; false
        when none is ready, where the kernel scans forever. Which one it takes is
        the matter of the scheduler. */
    method Schedule() returns (ok: bool, next: Pid)
      modifies this`procs, this`current
      ensures ok <==> exists p :: p in old(procs) && old(procs)[p].flag == 0
      ensures ok ==> next in old(procs) && old(procs)[next].flag == 0 && Abs() == Run(old(Abs()), next)
      ensures ok ==> current == next && procs == old(procs)[next := old(procs)[next].(flag := 2)]
      ensures QueuesOf(procs) == old(QueuesOf(procs))
    {
      if exists p :: p in procs && procs[p].flag == 0 {
        next :| next in procs && procs[next].flag == 0;
        QueueSame(procs, next, procs[next].(flag := 2));
        procs := procs[next := procs[next].(flag := 2)];
        current := next;
        ok := true;
      } else {
        ok, next := false, 0;
      }
    }

    /** SYSCALL_RECEIVE. */
    method Receive(ecx: nat) returns (ok: bool, ghost t: Frame, next: Pid)
      requires Inv(Abs()) && Matched()
      modifies this
      ensures ok ==> CanReceive(old(Abs()), ecx, t, next) && Abs() == ReceiveStep(old(Abs()), ecx, t, next) && Matched()
    {
      hide Inv, Wf, Tiled, Lookup, DirEntry, HasTable, EnsureTable, ProcOk, SetPte, QueuesOf, Spell;
      ghost var s0 := Abs();
      ok, t, next := true, 0, current;
      CurrentHas(s0);
      if ecx < 0xC000_0000 && ecx % 0x1000 == 0 {
        var v := ecx / 0x1000;
        var page := ReadPte(current, v);
        if page.Page? && page.phy {
          Result(NO_ADDRESS);
          return;
        }
        ClearedKeeps(s0, v);
        if page.Page? { LookupDir(s0, current, v); }
        Recycle(v, page);
        SpellAt(rings, procs, current);
        if rings[current].count == 0 {
          ok, next := SleepOn(v);
        } else {
          ok, t := FetchInto(v);
        }
        return;
      }
      Result(NO_ADDRESS);
    }

    /** What is mapped at the receive address goes back. */
    method Recycle(v: nat, page: Pte)
      requires Wf(Abs()) && Tiled(Abs()) && v < USER_PAGES && page == Lookup(Abs(), current, v) && (page.Page? ==> !page.phy)
      modifies this`free, this`tables
      ensures Abs() == Cleared(old(Abs()), v)
    {
      hide Wf, Tiled, Lookup, DirEntry, HasTable, SetPte;
      ghost var s0 := Abs();
      if page.Page? {
        LookupDir(s0, current, v);
        free := free + {page.frame};
        Unmapped(s0, Abs());
        WritePte(current, v, Absent);
        SetOnly(s0, Abs(), current, v, page.frame);
      }
    }

    method FetchInto(v: nat) returns (ok: bool, ghost t: Frame)
      requires Wf(Abs()) && Tiled(Abs()) && current in procs && current in log && Logged(Abs(), current) && Matched()
      requires procs[current].queue != [] && v < USER_PAGES && Lookup(Abs(), current, v) == Absent
      modifies this
      ensures ok ==> Matched()
      ensures ok ==>
                && TableReady(old(Abs()), old(current), v, t)
                && var s1 := EnsureTable(old(Abs()), old(current), v, t);
                   && Wf(s1) && s1.current == old(current) && s1.procs == old(procs)
                   && HasTable(s1, s1.current, v / ENTRIES)
                   && Abs() == SetAx(Fetch(s1, s1.current, v), s1.current, s1.procs[s1.current].queue[0].sender)
    {
      hide Tiled, Lookup, DirEntry, EnsureTable, TableReady, Logged, SetPte, HasTable, Wf, QueuesOf, Spell;
      var m;
      ok, m, t := FetchTo(v);
      if ok {
        Result(m.sender);
      }
    }

    /** threadSleep, then the thread's flag 2 and receiving++. */
    method SleepOn(v: nat) returns (ok: bool, next: Pid)
      requires current in procs && procs[current].avl == 1
      modifies this`procs, this`current
      ensures ok ==> next in old(procs) && old(procs)[next].flag == 0 && next != old(current)
      ensures ok ==> Abs() == Sleep(old(Abs()), v, next)
      ensures QueuesOf(procs) == old(QueuesOf(procs))
    {
      var p, me := procs[current], current;
      p := p.(threadFlag := 1, avl := p.avl - 1, flag := 1, cx := v);
      QueueSame(procs, current, p);
      procs := procs[current := p];
      ok, next := Schedule();
      if ok {
        QueueSame(procs, me, procs[me].(threadFlag := 2, receiving := procs[me].receiving + 1));
        procs := procs[me := procs[me].(threadFlag := 2, receiving := procs[me].receiving + 1)];
      }
    }

    /** The oldest message to the empty entry at v. */
    method FetchTo(v: nat) returns (ok: bool, m: Msg, ghost t: Frame)
      requires Wf(Abs()) && Tiled(Abs()) && current in procs && current in log && Logged(Abs(), current) && Matched()
      requires procs[current].queue != [] && v < USER_PAGES && Lookup(Abs(), current, v) == Absent
      modifies this
      ensures ok ==> Matched()
      ensures ok ==>
                && TableReady(old(Abs()), old(current), v, t) && m == old(procs[current].queue)[0]
                && var s1 := EnsureTable(old(Abs()), old(current), v, t);
                   && Wf(s1) && HasTable(s1, s1.current, v / ENTRIES)
                   && s1.current == old(current) == current && s1.procs == old(procs) && current in procs
                   && Abs() == Fetch(s1, s1.current, v)
    {
      hide Tiled, Lookup, DirEntry, TableReady, Logged, HasTable, Wf, EnsureTable, SetPte, QueuesOf, Spell;
      ghost var s0 := Abs();
      ghost var was := rings;
      SpellAt(rings, procs, current);
      m := TakeMessage(current);
      var r;
      ok, r, t := OpenPage(current, m.frame, v, false);
      if ok {
        EnsureKeeps(s0, current, v, t);
        SpellSet(was, procs, current, rings[current], procs[current].(queue := procs[current].queue[1..]));
        procs := procs[current := procs[current].(queue := procs[current].queue[1..])];
        log := log[current := log[current].(received := log[current].received + [m])];
      }
    }

    /** sendInterrupt. */
    method SendInterrupt(q: Pid) returns (ok: bool, ghost t: Frame, ghost g: Frame)
      requires Inv(Abs()) && Matched() && q in procs
      modifies this
      ensures ok ==> CanInterrupt(old(Abs()), q, t, g) && Abs() == InterruptStep(old(Abs()), q, t, g) && Matched()
    {
      hide Wf, Tiled, Lookup, DirEntry, HasTable, EnsureTable, TableReady, MapFree, QueuesOf, Spell;
      assert ProcOk(Abs(), q);
      ok, t, g := true, 0, 0;
      if procs[q].receiving > 0 {
        ok, t, g := MapFresh(q, procs[q].cx);
        if ok {
          WakeUp(q, MINUS_ONE, Msg(MINUS_ONE, g));
        }
      } else {
        SpellAt(rings, procs, q);
        if rings[q].count < MAX_MESSAGES {
          var page := AllocPage();
          if page.None? {
            return false, 0, 0;
          }
          g := page.value;
          var m := Msg(MINUS_ONE, page.value);
          ghost var was := rings;
          PutMessage(q, m);
          SpellSet(was, procs, q, rings[q], procs[q].(queue := procs[q].queue + [m]));
          procs := procs[q := procs[q].(queue := procs[q].queue + [m])];
          log := log[q := log[q].(accepted := log[q].accepted + [m])];
        }
      }
    }

    /** A fresh page at an empty entry: the table first, if it is missing. */
    method MapFresh(q: Pid, v: nat) returns (ok: bool, ghost t: Frame, ghost g: Frame)
      requires Wf(Abs()) && Tiled(Abs()) && q in procs && v < USER_PAGES && Lookup(Abs(), q, v) == Absent
      modifies this`tables, this`free
      ensures ok ==>
                && TableReady(old(Abs()), q, v, t)
                && var s1 := EnsureTable(old(Abs()), q, v, t);
                   && Wf(s1) && HasTable(s1, q, v / ENTRIES) && g in s1.free && Abs() == MapFree(s1, q, v, g)
    {
      ghost var s0 := Abs();
      g := 0;
      ok, t := MakeTable(q, v);
      if !ok {
        return;
      }
      EnsureKeeps(s0, q, v, t);
      ghost var s1 := Abs();
      var page := AllocPage();
      if page.None? {
        return false, t, 0;
      }
      g := page.value;
      Unmapped(s1, Abs());
      WritePte(q, v, Page(page.value, false));
    }

    /** SYSCALL_ALLOC_MEMORY of one page. (The kernel takes the page before a missing
        table; which free page serves as which makes no difference here.) */
    method AllocMemory(ecx: nat) returns (ok: bool, ghost t: Frame, ghost g: Frame)
      requires Inv(Abs()) && Matched() && ecx < 0x1_0000_0000
      modifies this
      ensures ok ==> CanAlloc(old(Abs()), ecx, t, g) && Abs() == AllocStep(old(Abs()), ecx, t, g) && Matched()
    {
      hide Wf, Tiled, Lookup, DirEntry, HasTable, EnsureTable, ProcOk, QueuesOf, Spell;
      ghost var s0 := Abs();
      var v := ecx / 0x1000;
      t, g := 0, 0;
      ok, t := MakeTable(current, v);
      if !ok {
        return;
      }
      EnsureKeeps(s0, current, v, t);
      ghost var s1 := Abs();
      var page := AllocPage();
      if page.None? {
        return false, t, 0;
      }
      g := page.value;
      Unmapped(s1, Abs());
      var e := ReadPte(current, v);
      if e != Absent {
        free := free + {page.value};
        assert free == s1.free;
        Result(MINUS_ONE);
      } else {
        WritePte(current, v, Page(page.value, false));
        Result(0);
      }
    }

    /** SYSCALL_OPEN_PHYSICAL_MEMORY of one page. */
    method OpenPhysical(frame: Frame, ecx: nat) returns (ok: bool, ghost t: Frame)
      requires Inv(Abs()) && Matched() && ecx < 0x1_0000_0000
      modifies this
      ensures ok ==> CanOpen(old(Abs()), ecx, t) && Abs() == OpenStep(old(Abs()), frame, ecx, t) && Matched()
    {
      hide Wf, Tiled, Lookup, DirEntry, HasTable, EnsureTable, SetPte, ProcOk, QueuesOf, Spell;
      ghost var s0 := Abs();
      var r;
      ok, r, t := OpenPage(current, frame, ecx / 0x1000, true);
      if ok {
        EnsureKeeps(s0, current, ecx / 0x1000, t);
        Result(if r == 0 then 0 else MINUS_ONE);
      }
    }

    /** The stack-growth branch of pageFaultHandler, on a page that is not
        present. */
    method GrowStack(v: nat) returns (ok: bool, ghost t: Frame, ghost g: Frame)
      requires Inv(Abs()) && Matched() && STACK_LOW < v < USER_PAGES && Lookup(Abs(), current, v) == Absent
      modifies this
      ensures ok ==> CanGrow(old(Abs()), v, t, g) && Abs() == GrowStep(old(Abs()), v, t, g) && Matched()
    {
      hide QueuesOf, Spell;
      ok, t, g := MapFresh(current, v);
    }

    /** SYSCALL_NICE: schedule(2), then the late `flag=0`; the caller cannot be picked
        itself. */
    method Nice() returns (ok: bool, next: Pid)
      requires Inv(Abs()) && Matched()
      modifies this`procs, this`current
      ensures ok ==> CanSwitch(old(Abs()), next) && next != old(current) && Abs() == SwitchStep(old(Abs()), next) && Matched()
    {
      hide Inv, QueuesOf, Spell;
      RunningFlag(Abs());
      var proc := current;
      QueueSame(procs, current, procs[current].(flag := 2));
      procs := procs[current := procs[current].(flag := 2)];
      ok, next := Schedule();
      if ok {
        QueueSame(procs, proc, procs[proc].(flag := 0));
        procs := procs[proc := procs[proc].(flag := 0)];
      }
    }

    /** A timer tick: schedule(0); the running process stays eligible. */
    method Tick() returns (ok: bool, next: Pid)
      requires Inv(Abs()) && Matched()
      modifies this`procs, this`current
      ensures ok && CanSwitch(old(Abs()), next) && Abs() == SwitchStep(old(Abs()), next) && Matched()
    {
      hide QueuesOf, Spell;
      QueueSame(procs, current, procs[current].(flag := 0));
      procs := procs[current := procs[current].(flag := 0)];
      assert procs[current].flag == 0;
      ok, next := Schedule();
    }

    // ----------------------------------------------------- creation and disposal

    /** createProcess: the pages of an address space with one stack page and of a
        thread, then the least unused identifier. */
    method CreateProcess() returns (ok: bool, pid: Pid, ghost cr3: Frame, ghost thread: Frame, ghost t: Frame, ghost g: Frame)
      requires Inv(Abs()) && Matched()
      modifies this
      ensures ok ==> CanCreate(old(Abs()), pid, cr3, thread, t, g) && Abs() == CreateStep(old(Abs()), pid, cr3, thread, t, g)
      ensures ok ==> Matched()
    {
      hide Wf, Tiled, ProcOk, NoTables, NoEntries, QueuesOf, Spell;
      ok, pid, cr3, thread, t, g := false, 0, 0, 0, 0, 0;
      ghost var s0 := Abs();
      assert WfProc(s0, current) by { CurrentWf(s0); }
      var upper: Upper := tables[procs[current].cr3][USER_TABLES..];
      var made, proc, page1, page2 := NewSpace(upper);
      if !made { return; }
      cr3, thread, t, g := proc.cr3, proc.thread, page1, page2;
      pid := LeastPid();
      ghost var was := rings;
      OpenRing(pid);
      SpellSet(was, procs, pid, rings[pid], proc);
      procs := procs[pid := proc];
      log := log[pid := Log([], [])];
      ok := true;
    }

    /** createProcessPDE and the pages of newProcess. */
    method NewSpace(upper: Upper) returns (ok: bool, proc: Proc, ghost t: Frame, ghost g: Frame)
      modifies this`tables, this`free
      ensures ok ==>
                && {proc.cr3, proc.thread, t, g} <= old(free) && FourDistinct(proc.cr3, proc.thread, t, g)
                && proc == NewProc(proc.cr3, proc.thread) && free == old(free) - {proc.cr3, proc.thread, t, g}
                && tables == old(tables)[proc.cr3 := (NoTables() + upper)[STACK_TOP_TABLE := Page(t, false)]]
                                        [t := NoEntries()[ENTRIES - 1 := Page(g, false)]]
    {
      hide NoTables, NoEntries;
      ok, proc, t, g := false, NewProc(0, 0), 0, 0;
      var pde := AllocPage();
      if pde.None? { return; }
      tables := tables[pde.value := NoTables() + upper];
      var stack := AllocPage();
      if stack.None? { return; }
      tables := tables[stack.value := NoEntries()];
      var page := AllocPage();
      if page.None? { return; }
      tables := tables[stack.value := tables[stack.value][ENTRIES - 1 := Page(page.value, false)]];
      tables := tables[pde.value := tables[pde.value][STACK_TOP_TABLE := Page(stack.value, false)]];
      var struct := AllocPage();
      if struct.None? { return; }
      proc := NewProc(pde.value, struct.value);
      ok, t, g := true, stack.value, page.value;
    }

    /** init_proc: the first process, from the kernel's own directory; it has identifier 0
        and runs. */
    method InitProc(upper: Upper) returns (ok: bool, ghost cr3: Frame, ghost thread: Frame, ghost t: Frame, ghost g: Frame)
      requires Matched() && procs == map[] && log == map[] && free == managed && kernel == tables.Keys && current == INIT
      requires KernelSpace(managed, tables, upper)
      modifies this
      ensures ok ==> BootPages(managed, cr3, thread, t, g) && managed == old(managed)
      ensures ok ==> Abs() == Boot(managed, old(tables), upper, cr3, thread, t, g) && Matched()
    {
      hide NoTables, NoEntries, KernelSpace, Boot, QueuesOf, Spell;
      ok, cr3, thread, t, g := false, 0, 0, 0, 0;
      assert Abs() == NoProcs(managed, tables);
      var made, proc, page1, page2 := NewSpace(upper);
      if !made { return; }
      cr3, thread, t, g := proc.cr3, proc.thread, page1, page2;
      BootParts(managed, old(tables), upper, cr3, thread, t, g);
      ghost var was := rings;
      OpenRing(INIT);
      SpellSet(was, procs, INIT, rings[INIT], proc.(flag := 2));
      procs := procs[INIT := proc.(flag := 2)];
      log := log[INIT := Log([], [])];
      ok := true;
    }

    /** The scan of the process list for the first identifier out of turn. */
    method LeastPid() returns (pid: Pid)
      ensures LeastUnused(Abs(), pid)
    {
      pid := 1;
      ghost var left := procs.Keys;
      while pid in procs
        invariant pid > 0 && (forall q: Pid :: 0 < q < pid ==> q in procs)
        invariant left <= procs.Keys && forall q :: q in procs && q >= pid ==> q in left
        decreases left
      {
        left := left - {pid};
        pid := pid + 1;
      }
    }

    ghost function Pool(): Store
      reads this`free, this`recycled
    {
      Store(free, recycled)
    }

    /** recyclePhysicalPage. */
    method RecyclePage(f: Frame)
      modifies this`free, this`recycled
      ensures Back(old(Pool()), Pool(), multiset{f})
    {
      free := free + {f};
      recycled := recycled + multiset{f};
    }

    method RecycleEntry(e: Pte, phyToo: bool)
      modifies this`free, this`recycled
      ensures Back(old(Pool()), Pool(), OfEntry(e, phyToo))
    {
      if e.Page? && (phyToo || !e.phy) {
        RecyclePage(e.frame);
      }
    }

    /** One table's loop; the stack loops pass phyToo. */
    method RecycleEntries(t: Frame, phyToo: bool)
      requires t in tables && |tables[t]| == ENTRIES
      modifies this`free, this`recycled
      ensures Back(old(Pool()), Pool(), OfEntries(tables[t], phyToo))
    {
      hide Back, OfEntries, OfEntry;
      var entries := tables[t];
      BackNone(Pool());
      NextEntry(entries, 0, phyToo);
      for num := 0 to ENTRIES
        invariant Back(old(Pool()), Pool(), OfEntries(entries[..num], phyToo))
      {
        NextEntry(entries, num, phyToo);
        ghost var pool := Pool();
        RecycleEntry(entries[num], phyToo);
        BackMore(old(Pool()), pool, Pool(), OfEntries(entries[..num], phyToo), OfEntry(entries[num], phyToo));
      }
      assert entries[..ENTRIES] == entries;
    }

    /** A table's pages and then its own. */
    method RecycleTable(pde: Pte, phyToo: bool)
      requires pde.Page? && pde.frame in tables && |tables[pde.frame]| == ENTRIES
      modifies this`free, this`recycled
      ensures Back(old(Pool()), Pool(), OfTable(tables, pde, phyToo))
    {
      hide Back, OfEntries;
      RecycleEntries(pde.frame, phyToo);
      ghost var pool := Pool();
      RecyclePage(pde.frame);
      BackMore(old(Pool()), pool, Pool(), OfEntries(tables[pde.frame], phyToo), multiset{pde.frame});
    }

    /** A page directory: its tables are there, in full. */
    ghost predicate Rooted(cr3: Frame)
      reads this`tables
    {
      && cr3 in tables && |tables[cr3]| == ENTRIES
      && forall i :: 0 <= i < USER_TABLES && tables[cr3][i].Page? ==>
           tables[cr3][i].frame in tables && |tables[tables[cr3][i].frame]| == ENTRIES
    }

    ghost function StackPages(cr3: Frame): multiset<Frame>
      requires Rooted(cr3)
      reads this`tables
    {
      OfTable(tables, tables[cr3][STACK_TOP_TABLE], true) + OfTable(tables, tables[cr3][STACK_TOP_TABLE - 1], true)
    }

    /** recycleThreadStack: the table below the top one may be missing. */
    method RecycleThreadStack(cr3: Frame)
      requires Rooted(cr3) && tables[cr3][STACK_TOP_TABLE].Page?
      modifies this`free, this`recycled, this`tables
      ensures Rooted(cr3) && tables == old(tables)[cr3 := NoStack(old(tables)[cr3])]
      ensures Back(old(Pool()), Pool(), old(StackPages(cr3)))
    {
      hide Back, OfTable;
      ghost var before, h := tables, StackPages(cr3);
      AbsentTable(before, before[cr3][STACK_TOP_TABLE - 1]);
      var entry := STACK_TOP_TABLE;
      RecycleTable(tables[cr3][entry], true);
      assert tables[cr3][entry - 1].Absent? ==> h == OfTable(before, before[cr3][entry], true);
      if tables[cr3][entry - 1].Page? {
        ghost var pool := Pool();
        RecycleTable(tables[cr3][entry - 1], true);
        BackMore(old(Pool()), pool, Pool(), OfTable(before, before[cr3][entry], true),
                 OfTable(before, before[cr3][entry - 1], true));
        tables := tables[cr3 := tables[cr3][entry - 1 := Absent]];
      }
      tables := tables[cr3 := tables[cr3][entry := Absent]];
      assert tables[cr3] == NoStack(before[cr3]);
    }

    /** recycleProcessPDE. */
    method RecycleProcessPDE(cr3: Frame)
      requires Rooted(cr3)
      modifies this`free, this`recycled
      ensures Back(old(Pool()), Pool(), OfDirectory(tables, tables[cr3][..USER_TABLES]) + multiset{cr3})
    {
      hide Back, OfDirectory, OfTable;
      var d := tables[cr3];
      BackNone(Pool());
      NextTable(tables, d, 0);
      for index := 0 to USER_TABLES
        invariant Back(old(Pool()), Pool(), OfDirectory(tables, d[..index]))
      {
        NextTable(tables, d, index);
        if d[index].Page? {
          ghost var pool := Pool();
          RecycleTable(d[index], false);
          BackMore(old(Pool()), pool, Pool(), OfDirectory(tables, d[..index]), OfTable(tables, d[index], false));
        }
      }
      ghost var pool := Pool();
      RecyclePage(cr3);
      BackMore(old(Pool()), pool, Pool(), OfDirectory(tables, d[..USER_TABLES]), multiset{cr3});
    }

    /** The queued messages, oldest first. */
    method DrainRing(q: Pid)
      requires q in rings && Sound(rings[q])
      modifies this`free, this`recycled, this`rings
      ensures rings.Keys == old(rings).Keys && forall p :: p in rings && p != q ==> rings[p] == old(rings)[p]
      ensures Back(old(Pool()), Pool(), OfQueue(Queue(old(rings)[q])))
    {
      hide Back, OfQueue, Index, Queue, Pushed, Popped;
      ghost var queue, n := Queue(rings[q]), 0;
      BackNone(Pool());
      NoneQueued(queue);
      while rings[q].count != 0
        invariant rings.Keys == old(rings).Keys && Sound(rings[q]) && n <= |queue| && Queue(rings[q]) == queue[n..]
        invariant forall p :: p in rings && p != q ==> rings[p] == old(rings)[p]
        invariant Back(old(Pool()), Pool(), OfQueue(queue[..n]))
        decreases rings[q].count
      {
        NextMessage(queue, n);
        ghost var pool := Pool();
        var m := TakeMessage(q);
        RecyclePage(m.frame);
        BackMore(old(Pool()), pool, Pool(), OfQueue(queue[..n]), multiset{m.frame});
        n := n + 1;
      }
      assert queue[..n] == queue;
    }

    /** The rest of disposeProcess and of disposeThread, once the stack is gone. */
    method DisposeProcess(me: Pid, proc: Proc)
      requires Rooted(proc.cr3) && Matched() && me in procs && proc.queue == procs[me].queue
      modifies this`procs, this`log, this`free, this`recycled, this`rings
      ensures procs == old(procs) - {me} && log == old(log) - {me} && Matched()
      ensures Back(old(Pool()), Pool(), SpacePages(tables, proc))
    {
      hide Back, OfDirectory, OfQueue, QueuesOf, Spell;
      SpellAt(rings, procs, me);
      SpellGone(rings, procs, me);
      ghost var was := rings;
      procs := procs - {me};
      log := log - {me};
      ghost var d := OfDirectory(tables, tables[proc.cr3][..USER_TABLES]) + multiset{proc.cr3};
      RecycleProcessPDE(proc.cr3);
      ghost var pool1 := Pool();
      DrainRing(me);
      rings := rings - {me};
      assert rings == was - {me};
      ghost var pool2 := Pool();
      BackMore(old(Pool()), pool1, pool2, d, OfQueue(proc.queue));
      RecyclePage(proc.thread);
      BackMore(old(Pool()), pool2, Pool(), d + OfQueue(proc.queue), multiset{proc.thread});
    }

    /** disposeProcess of the running process, once its stack is gone. */
    method DisposeCurrent() returns (ok: bool, next: Pid)
      requires current in procs && procs[current].flag == 2 && Rooted(procs[current].cr3) && Matched()
      modifies this`procs, this`log, this`current, this`free, this`recycled, this`rings
      ensures ok ==> next in old(procs) && old(procs)[next].flag == 0 && current == next
      ensures ok ==> procs == old(procs)[next := old(procs)[next].(flag := 2)] - {old(current)}
      ensures ok ==> log == old(log) - {old(current)} && Matched()
      ensures ok ==> Back(old(Pool()), Pool(), SpacePages(tables, old(procs[current])))
    {
      hide QueuesOf, Spell;
      var me, proc := current, procs[current];
      hide Back, SpacePages, Run;
      ok, next := Schedule();
      if ok {
        DisposeProcess(me, proc);
      }
    }

    /** disposeThread of the one thread, for any process table: the stack window is
        handed back whatever its marks, and nothing that is mapped at PAGE_OFFSET or
        above. */
    method DisposeThread() returns (ok: bool, next: Pid)
      requires current in procs && procs[current].flag == 2 && Matched()
      requires Rooted(procs[current].cr3) && tables[procs[current].cr3][STACK_TOP_TABLE].Page?
      modifies this
      ensures managed == old(managed) && kernel == old(kernel)
      ensures ok ==> next in old(procs) && old(procs)[next].flag == 0 && current == next
      ensures ok ==> procs == old(procs)[next := old(procs)[next].(flag := 2)] - {old(current)}
      ensures ok ==> log == old(log) - {old(current)} && Matched()
      ensures var q := old(procs[current]);
              ok ==> tables == old(tables)[q.cr3 := NoStack(old(tables)[q.cr3])]
                     && Back(old(Pool()), Pool(), old(StackPages(q.cr3)) + SpacePages(tables, q))
    {
      hide Back, OfTable, SpacePages, NoStack, QueuesOf, Spell;
      ghost var proc, h := procs[current], StackPages(procs[current].cr3);
      RecycleThreadStack(procs[current].cr3);
      ghost var pool := Pool();
      ok, next := DisposeCurrent();
      if ok {
        BackMore(old(Pool()), pool, Pool(), h, SpacePages(tables, proc));
      }
    }

    /** EXIT. What goes back is what Dispose.RecycledOnce speaks of. */
    method Exit() returns (ok: bool, next: Pid)
      requires Inv(Abs()) && Matched() && current != INIT && DirEntry(Abs(), current, STACK_TOP_TABLE).Page?
      modifies this
      ensures ok ==> CanExit(old(Abs()), next) && Abs() == ExitStep(old(Abs()), next) && Matched()
      ensures ok ==> recycled == old(recycled) + old(Recycled(Abs(), current))
    {
      hide QueuesOf, Spell;
      ghost var s0, pool0 := Abs(), Pool();
      StackRooted(s0, current);
      DisposalParts(s0, current);
      hide Back, OfTable, Inv, Lookup, DirEntry, CanExit, ExitStep, SpacePages, Wf, WfProc, ProcOk, Tiled, Recycled;
      ok, next := DisposeThread();
      if ok {
        BackAll(pool0, Pool(), Recycled(s0, s0.current));
        ExitParts(s0, next);
      }
    }
  }

  // ------------------------------------------------------------- the queues

  ghost function QueuesOf(procs: map<Pid, Proc>): map<Pid, seq<Msg>> {
    map p | p in procs :: procs[p].queue
  }

  /** Each buffer is sound and spells out its queue. */
  ghost predicate Spell(rings: map<Pid, Buffer<Msg>>, queues: map<Pid, seq<Msg>>) {
    rings.Keys == queues.Keys && forall p :: p in rings ==> Sound(rings[p]) && Queue(rings[p]) == queues[p]
  }

  lemma SpellAt(rings: map<Pid, Buffer<Msg>>, procs: map<Pid, Proc>, p: Pid)
    requires Spell(rings, QueuesOf(procs)) && p in procs
    ensures p in rings && Sound(rings[p]) && Queue(rings[p]) == procs[p].queue && rings[p].count == |procs[p].queue|
  {
  }

  lemma SpellSet(rings: map<Pid, Buffer<Msg>>, procs: map<Pid, Proc>, p: Pid, b: Buffer<Msg>, r: Proc)
    requires Spell(rings, QueuesOf(procs)) && Sound(b) && Queue(b) == r.queue
    ensures Spell(rings[p := b], QueuesOf(procs[p := r]))
  {
  }

  lemma SpellGone(rings: map<Pid, Buffer<Msg>>, procs: map<Pid, Proc>, p: Pid)
    requires Spell(rings, QueuesOf(procs))
    ensures Spell(rings - {p}, QueuesOf(procs - {p}))
  {
  }

  lemma QueueSame(procs: map<Pid, Proc>, p: Pid, r: Proc)
    requires p in procs && r.queue == procs[p].queue
    ensures QueuesOf(procs[p := r]) == QueuesOf(procs)
  {
  }

  lemma NoneQueued(queue: seq<Msg>)
    ensures OfQueue(queue[..0]) == multiset{}
  {
  }

  // ------------------------------------------------- the steps, part by part

  ghost function SpacePages(tables: map<Frame, seq<Pte>>, proc: Proc): multiset<Frame>
    requires proc.cr3 in tables && |tables[proc.cr3]| == ENTRIES
  {
    OfDirectory(tables, tables[proc.cr3][..USER_TABLES]) + multiset{proc.cr3} + OfQueue(proc.queue) + multiset{proc.thread}
  }

  lemma BackAll(a: Store, b: Store, h: multiset<Frame>)
    requires Back(a, b, h)
    ensures b.free == a.free + (set f | f in h) && b.recycled == a.recycled + h
  {
  }

  lemma StackRooted(s: Sys, p: Pid)
    requires Inv(s) && p == s.current && DirEntry(s, p, STACK_TOP_TABLE).Page?
    ensures Wf(s) && p in s.procs && WfProc(s, p) && ProcOk(s, p) && s.procs[p].flag == 2
    ensures s.tables[s.procs[p].cr3][STACK_TOP_TABLE].Page?
  {
  }

  /** The record goes when the next process has the CPU already. */
  lemma ExitParts(s: Sys, next: Pid)
    requires Inv(s) && s.current != INIT && next in s.procs && s.procs[next].flag == 0
    ensures CanExit(s, next)
    ensures var d := s.procs[s.current].cr3;
            && d in s.tables && |s.tables[d]| == ENTRIES
            && ExitStep(s, next) == Run(s, next).(procs := Run(s, next).procs - {s.current}, log := s.log - {s.current},
                                                  tables := s.tables[d := NoStack(s.tables[d])],
                                                  free := s.free + set f | f in Recycled(s, s.current))
  {
    hide Recycled, NoStack, Lookup, DirEntry, Tiled;
    assert ProcOk(s, s.current) && WfProc(s, s.current);
    var u := Run(s, next).procs - {s.current};
    assert u == (s.procs - {s.current})[next := s.procs[next].(flag := 2)];
  }

  lemma CurrentWf(s: Sys)
    requires Inv(s)
    ensures Wf(s) && s.current in s.procs && WfProc(s, s.current)
  {
  }

  /** What a call finds of the running process and the others. */
  lemma CurrentHas(s: Sys)
    requires Inv(s)
    ensures Wf(s) && Tiled(s) && s.current in s.procs && s.current in s.log && Logged(s, s.current)
    ensures s.procs[s.current].avl == 1 && s.log.Keys == s.procs.Keys
  {
    assert ProcOk(s, s.current);
  }

  lemma PostPossible(s: Sys, q: Pid, v: nat)
    requires Inv(s) && q in s.procs && Lookup(s, s.current, v).Page? && !Lookup(s, s.current, v).phy
    ensures q in s.log && s.current in s.procs
  {
    hide Lookup;
    assert ProcOk(s, q);
  }

  /** The page and the entry, in either order. */
  lemma SetOnly(s: Sys, u: Sys, p: Pid, v: nat, f: Frame)
    requires Wf(s) && v < USER_PAGES && Lookup(s, p, v).Page? && !Lookup(s, p, v).phy && f == Lookup(s, p, v).frame && p == s.current
    requires Wf(s.(free := s.free + {f})) && DirEntry(s.(free := s.free + {f}), p, v / ENTRIES).Page?
    requires u == SetPte(s.(free := s.free + {f}), p, v, Absent)
    ensures u == Cleared(s, v)
  {
    LookupDir(s, p, v);
  }

  lemma RunningFlag(s: Sys)
    requires Inv(s)
    ensures s.current in s.procs && s.procs[s.current].flag == 2
  {
    assert ProcOk(s, s.current);
  }

  lemma AbsentTable(tables: map<Frame, seq<Pte>>, pde: Pte)
    ensures pde.Absent? ==> OfTable(tables, pde, true) == multiset{}
  {
  }

  lemma ReceiverReady(s: Sys, q: Pid)
    requires Inv(s) && q in s.procs && s.procs[q].receiving > 0
    ensures Wf(s) && Tiled(s) && s.current in s.procs && q in s.log && s.procs[q].cx < USER_PAGES && Waiting(s, q)
  {
    assert ProcOk(s, q);
  }

  lemma RingOnly(s: Sys, q: Pid, m: Msg, g: Frame, u: Sys)
    requires Wf(s) && q in s.procs && q in s.log && u == Enqueue(s, q, m).(free := s.free - {g})
    ensures Wf(u) && u.kernel == s.kernel
    ensures forall r, i :: DirEntry(u, r, i) == DirEntry(s, r, i)
  {
    Unmapped(s, Enqueue(s, q, m));
    Unmapped(Enqueue(s, q, m), u);
  }

  lemma PostParts(s: Sys, q: Pid, v: nat, sender: int, g: Frame)
    requires Inv(s) && q in s.procs && v < USER_PAGES && Lookup(s, s.current, v).Page? && !Lookup(s, s.current, v).phy && g in s.free
    ensures var m := Msg(sender, Lookup(s, s.current, v).frame);
            var u := Enqueue(s, q, m).(free := s.free - {g});
            && Wf(u) && DirEntry(u, s.current, v / ENTRIES).Page?
            && PostTo(s, q, v, sender, g) == SetPte(u, s.current, v, Page(g, false))
  {
    hide Lookup, Tiled;
    var m := Msg(sender, Lookup(s, s.current, v).frame);
    assert ProcOk(s, q);
    LookupDir(s, s.current, v);
    RingOnly(s, q, m, g, Enqueue(s, q, m).(free := s.free - {g}));
    PostKeeps(s, s.current, v, q, sender);
    var l := PostTo(s, q, v, sender, g);
    var r := SetPte(Enqueue(s, q, m).(free := s.free - {g}), s.current, v, Page(g, false));
    var a := DirEntry(s, s.current, v / ENTRIES).frame;
    assert l.tables[a] == r.tables[a];
    assert l.tables == r.tables;
  }

  /** The order in which the entries are written does not matter: the receiver's
      first, then the sender's, is what taking the page away first comes to. */
  lemma DeliverParts(s: Sys, q: Pid, v: nat, sender: int, t: Frame, g: Frame)
    requires Inv(s) && q in s.procs && s.procs[q].receiving > 0 && Waiting(s, q)
    requires v < USER_PAGES && Lookup(s, s.current, v).Page? && !Lookup(s, s.current, v).phy
    requires TableReady(s, q, s.procs[q].cx, t) && g in EnsureTable(s, q, s.procs[q].cx, t).free
    ensures CanDeliver(s, q, t, g)
    ensures var f := Lookup(s, s.current, v).frame;
            var s1 := EnsureTable(s, q, s.procs[q].cx, t);
            && Wf(s1) && HasTable(s1, q, s.procs[q].cx / ENTRIES)
            && var u := SetPte(s1, q, s.procs[q].cx, Page(f, false)).(free := s1.free - {g});
               && Wf(u) && DirEntry(u, s.current, v / ENTRIES).Page?
               && Deliver(s, q, v, sender, t, g) == Wake(SetPte(u, s.current, v, Page(g, false)), q, Msg(sender, f))
  {
    hide DirEntry, Wf;
    var w, f := s.procs[q].cx, Lookup(s, s.current, v).frame;
    assert ProcOk(s, q) && ProcOk(s, s.current);
    EnsureKeeps(s, q, w, t);
    var s1 := EnsureTable(s, q, w, t);
    TiledTablesApart(s1);
    LookupDir(s1, s.current, v);
    LookupSet(s1, q, w, Page(f, false));
    var u := SetPte(s1, q, w, Page(f, false)).(free := s1.free - {g});
    Unmapped(SetPte(s1, q, w, Page(f, false)), u);
    CarryKeeps(s1, s.current, v, q, w);
    LookupSet(s1, s.current, v, Absent);
    SetTwice(s1, s.current, v, q, w, Page(f, false), Page(g, false));
  }

  /** Two entries of different processes may be written in either order. */
  lemma SetTwice(s: Sys, p: Pid, v: nat, q: Pid, w: nat, e: Pte, d: Pte)
    requires Wf(s) && TablesApart(s) && p != q && HasTable(s, p, v / ENTRIES) && HasTable(s, q, w / ENTRIES)
    requires Wf(SetPte(s, p, v, Absent)) && Wf(SetPte(s, q, w, e)) && Wf(SetPte(SetPte(s, p, v, Absent), q, w, e))
    requires forall r, i :: DirEntry(SetPte(s, p, v, Absent), r, i) == DirEntry(s, r, i)
    requires forall r, i :: DirEntry(SetPte(s, q, w, e), r, i) == DirEntry(s, r, i)
    requires forall r, i :: DirEntry(SetPte(SetPte(s, p, v, Absent), q, w, e), r, i) == DirEntry(s, r, i)
    ensures SetPte(SetPte(SetPte(s, p, v, Absent), q, w, e), p, v, d) == SetPte(SetPte(s, q, w, e), p, v, d)
  {
    var a, b := DirEntry(s, p, v / ENTRIES).frame, DirEntry(s, q, w / ENTRIES).frame;
    assert a != b by {
      if a == b { assert SameFrame(DirEntry(s, p, v / ENTRIES), DirEntry(s, q, w / ENTRIES)); }
    }
    var l := SetPte(SetPte(SetPte(s, p, v, Absent), q, w, e), p, v, d).tables;
    var r := SetPte(SetPte(s, q, w, e), p, v, d).tables;
    assert l[a] == r[a] && l[b] == r[b];
    assert l == r;
  }

  /** Striking the stack tables out of the directory leaves the other tables as they
      were, so the two parts of a disposal make up the whole. */
  lemma DisposalParts(s: Sys, p: Pid)
    requires Inv(s) && p in s.procs
    ensures WfProc(s, p) && ProcOk(s, p)
    ensures var d, q := s.tables[s.procs[p].cr3], s.procs[p];
            OfTable(s.tables, d[STACK_TOP_TABLE], true) + OfTable(s.tables, d[STACK_TOP_TABLE - 1], true)
            + SpacePages(s.tables[q.cr3 := NoStack(d)], q) == Recycled(s, p)
  {
    assert WfProc(s, p) && ProcOk(s, p);
    var d, q := s.tables[s.procs[p].cr3], s.procs[p];
    var e := NoStack(d)[..USER_TABLES];
    forall i | 0 <= i < USER_TABLES && e[i].Page?
      ensures e[i].frame != q.cr3
    {
      assert HasTable(s, p, i);
      TablesDistinct(s, p, i, p, 0);
    }
    SameDirectoryPages(s.tables, q.cr3, NoStack(d), e);
  }

  lemma {:induction false} SameDirectoryPages(tables: map<Frame, seq<Pte>>, cr3: Frame, e: seq<Pte>, d: seq<Pte>)
    requires forall i :: 0 <= i < |d| && d[i].Page? ==> d[i].frame != cr3
    ensures OfDirectory(tables[cr3 := e], d) == OfDirectory(tables, d)
  {
    if d != [] {
      SameDirectoryPages(tables, cr3, e, d[..|d| - 1]);
    }
  }
}
