// Page tables stay: no call takes a table away from a process that lives on, so
// every process has its topmost stack table when it comes to be disposed of, as
// recycleThreadStack takes for granted (kernel/process/page.c:91-101).
module Stacks {
  import opened Pages
  import opened Dispose
  import opened Ipc

  /** Whatever table a process had it still has. */
  ghost predicate TablesStay(s: Sys, t: Sys) {
    forall q, i :: q in t.procs && DirEntry(s, q, i).Page? ==> DirEntry(t, q, i).Page?
  }

  /** Every process has the table of the top of its stack. */
  ghost predicate Stacked(s: Sys) {
    forall p :: p in s.procs ==> DirEntry(s, p, STACK_TOP_TABLE).Page?
  }

  lemma EnsureStays(s: Sys, p: Pid, v: nat, t: Frame)
    requires Wf(s) && Tiled(s) && p in s.procs && v < ALL_PAGES && TableReady(s, p, v, t)
    ensures TablesStay(s, EnsureTable(s, p, v, t))
  {
    if DirEntry(s, p, v / ENTRIES) == Absent {
      TableAdded(s, p, v / ENTRIES, t);
    }
  }

  lemma RegistersStay(s: Sys, t: Sys)
    requires Wf(s) && t.tables == s.tables && SameSpaces(s, t)
    ensures TablesStay(s, t)
  {
    Unmapped(s, t);
  }

  lemma SendStays(s: Sys, edx: Pid, ecx: nat, ebx: int, t: Frame, g: Frame)
    requires CanSend(s, edx, ecx, t, g)
    ensures TablesStay(s, SendStep(s, edx, ecx, ebx, t, g))
  {
    var u := SendStep(s, edx, ecx, ebx, t, g);
    if HasPage(s, ecx) && Listed(s, edx) && s.procs[edx].receiving > 0 {
      DeliverStays(s, edx, PageOf(ecx), Parcel(s, ecx, ebx).sender, t, g);
      AxStays(Deliver(s, edx, PageOf(ecx), Parcel(s, ecx, ebx).sender, t, g), s.current, 1);
    } else if HasPage(s, ecx) && Listed(s, edx) && |s.procs[edx].queue| < MAX_MESSAGES {
      PostStays(s, edx, PageOf(ecx), Parcel(s, ecx, ebx).sender, g);
      AxStays(PostTo(s, edx, PageOf(ecx), Parcel(s, ecx, ebx).sender, g), s.current, 1);
    } else {
      RegistersStay(s, u);
    }
  }

  lemma AxStays(s: Sys, p: Pid, x: int)
    requires Wf(s) && p in s.procs
    ensures TablesStay(s, SetAx(s, p, x))
  {
    RegistersStay(s, SetAx(s, p, x));
  }

  lemma DeliverStays(s: Sys, q: Pid, v: nat, sender: int, t: Frame, g: Frame)
    requires CanDeliver(s, q, t, g) && v < USER_PAGES && Lookup(s, s.current, v).Page? && !Lookup(s, s.current, v).phy
    ensures TablesStay(s, Deliver(s, q, v, sender, t, g)) && Wf(Deliver(s, q, v, sender, t, g))
  {
    hide Lookup, DirEntry, Wf, Tiled, ProcOk;
    var w := s.procs[q].cx;
    EnsureKeeps(s, q, w, t);
    EnsureStays(s, q, w, t);
    var s1 := EnsureTable(s, q, w, t);
    CarryKeeps(s1, s.current, v, q, w);
    var s2 := Carry(s1, s.current, v, q, w);
    LookupDir(s1, s.current, v);
    MapFreeKeeps(s2, s.current, v, g);
    var s3 := MapFree(s2, s.current, v, g);
    hide Lookup, Tiled, EnsureTable, Carry, MapFree;
    Unmapped(s3, Deliver(s, q, v, sender, t, g));
  }

  lemma PostStays(s: Sys, q: Pid, v: nat, sender: int, g: Frame)
    requires Inv(s) && q in s.procs && v < USER_PAGES && Lookup(s, s.current, v).Page? && !Lookup(s, s.current, v).phy && g in s.free
    ensures TablesStay(s, PostTo(s, q, v, sender, g)) && Wf(PostTo(s, q, v, sender, g))
  {
    assert ProcOk(s, q);
    PostKeeps(s, s.current, v, q, sender);
    LookupDir(s, s.current, v);
    MapFreeKeeps(Post(s, s.current, v, q, sender), s.current, v, g);
  }

  lemma ReceiveStays(s: Sys, ecx: nat, t: Frame, next: Pid)
    requires CanReceive(s, ecx, t, next)
    ensures TablesStay(s, ReceiveStep(s, ecx, t, next))
  {
    hide Lookup, DirEntry, Wf, Tiled;
    var cur, v, u := s.current, PageOf(ecx), ReceiveStep(s, ecx, t, next);
    if !GoodAddress(ecx) || (Lookup(s, cur, v).Page? && Lookup(s, cur, v).phy) {
      RegistersStay(s, u);
    } else {
      ClearedKeeps(s, v);
      var s1 := Cleared(s, v);
      if s.procs[cur].queue == [] {
        RegistersStay(s1, u);
      } else {
        EnsureKeeps(s1, cur, v, t);
        EnsureStays(s1, cur, v, t);
        FetchedStays(s1, EnsureTable(s1, cur, v, t), cur, v);
      }
    }
  }

  lemma FetchedStays(s1: Sys, s2: Sys, q: Pid, v: nat)
    requires Wf(s2) && Tiled(s2) && TablesStay(s1, s2) && q in s2.procs && q in s2.log && Logged(s2, q)
    requires s2.procs[q].queue != [] && HasTable(s2, q, v / ENTRIES) && Lookup(s2, q, v) == Absent
    ensures TablesStay(s1, SetAx(Fetch(s2, q, v), q, s2.procs[q].queue[0].sender))
  {
    FetchKeeps(s2, q, v);
    AxStays(Fetch(s2, q, v), q, s2.procs[q].queue[0].sender);
  }

  lemma InterruptStays(s: Sys, p: Pid, t: Frame, g: Frame)
    requires CanInterrupt(s, p, t, g)
    ensures TablesStay(s, InterruptStep(s, p, t, g))
  {
    hide Lookup, DirEntry, Wf, Tiled;
    assert ProcOk(s, p);
    if s.procs[p].receiving > 0 {
      var w := s.procs[p].cx;
      EnsureKeeps(s, p, w, t);
      EnsureStays(s, p, w, t);
      var s1 := EnsureTable(s, p, w, t);
      GainedStays(s1, MapFree(s1, p, w, g), InterruptStep(s, p, t, g), p, w, Page(g, false));
    } else {
      RegistersStay(s, InterruptStep(s, p, t, g));
    }
  }

  lemma AllocStays(s: Sys, ecx: nat, t: Frame, g: Frame)
    requires CanAlloc(s, ecx, t, g)
    ensures TablesStay(s, AllocStep(s, ecx, t, g))
  {
    hide Lookup, DirEntry, Wf, Tiled;
    var cur, v, u := s.current, PageOf(ecx), AllocStep(s, ecx, t, g);
    EnsureKeeps(s, cur, v, t);
    EnsureStays(s, cur, v, t);
    var s1 := EnsureTable(s, cur, v, t);
    if Lookup(s1, cur, v) == Absent {
      GainedStays(s1, MapFree(s1, cur, v, g), u, cur, v, Page(g, false));
    } else {
      RegistersStay(s1, u);
    }
  }

  lemma OpenStays(s: Sys, frame: Frame, ecx: nat, t: Frame)
    requires CanOpen(s, ecx, t)
    ensures TablesStay(s, OpenStep(s, frame, ecx, t))
  {
    hide Lookup, DirEntry, Wf, Tiled;
    var cur, v, u := s.current, PageOf(ecx), OpenStep(s, frame, ecx, t);
    EnsureKeeps(s, cur, v, t);
    EnsureStays(s, cur, v, t);
    var s1 := EnsureTable(s, cur, v, t);
    if Lookup(s1, cur, v) == Absent {
      GainedStays(s1, SetPte(s1, cur, v, Page(frame, true)), u, cur, v, Page(frame, true));
    } else {
      RegistersStay(s1, u);
    }
  }

  lemma GrowStays(s: Sys, v: nat, t: Frame, g: Frame)
    requires CanGrow(s, v, t, g)
    ensures TablesStay(s, GrowStep(s, v, t, g))
  {
    EnsureKeeps(s, s.current, v, t);
    EnsureStays(s, s.current, v, t);
    var s1 := EnsureTable(s, s.current, v, t);
    GainedStays(s1, MapFree(s1, s.current, v, g), GrowStep(s, v, t, g), s.current, v, Page(g, false));
  }

  lemma GainedStays(s: Sys, t: Sys, u: Sys, p: Pid, v: nat, e: Pte)
    requires Wf(s) && Tiled(s) && DirEntry(s, p, v / ENTRIES).Page? && t.tables == SetPte(s, p, v, e).tables
    requires SameSpaces(s, t) && u.tables == t.tables && SameSpaces(t, u)
    ensures TablesStay(s, u)
  {
    TiledTablesApart(s);
    SetAnywhere(s, p, v, e);
    Unmapped(SetPte(s, p, v, e), u);
  }

  lemma CreateStays(s: Sys, p: Pid, cr3: Frame, thread: Frame, t: Frame, g: Frame)
    requires CanCreate(s, p, cr3, thread, t, g) && LowOnly(s, s.current)
    ensures TablesStay(s, CreateStep(s, p, cr3, thread, t, g))
    ensures DirEntry(CreateStep(s, p, cr3, thread, t, g), p, STACK_TOP_TABLE).Page?
  {
    hide Lookup, Tiled, CreateStep;
    CreateParts(s, p, cr3, thread, t, g);
    var s1 := AddProc(s, p, cr3, thread, UpperOf(s, s.current));
    var s2 := WithTable(s1, p, STACK_TOP_TABLE, t);
    TableAdded(s1, p, STACK_TOP_TABLE, t);
    MapFreeKeeps(s2, p, STACK_TOP_PAGE, g);
  }

  lemma ExitStays(s: Sys, next: Pid)
    requires CanExit(s, next) && LowOnly(s, s.current) && CleanStack(s, s.current)
    ensures TablesStay(s, ExitStep(s, next))
  {
    hide Lookup, DirEntry, Wf, ExitStep, LowOnly, CleanStack, Owned;
    RemoveProcKeeps(s, s.current);
    ExitIs(s, next);
    RegistersStay(RemoveProc(s, s.current), Run(RemoveProc(s, s.current), next));
  }

  lemma SwitchStays(s: Sys, next: Pid)
    requires CanSwitch(s, next)
    ensures TablesStay(s, SwitchStep(s, next))
  {
    hide Lookup, DirEntry, Wf, Tiled;
    RegistersStay(s, SwitchStep(s, next));
  }

  lemma StepStays(s: Sys, e: Step)
    requires Enabled(s, e) && Wf(s) && Harmless(s, e)
    ensures TablesStay(s, Next(s, e))
  {
    hide SendStep, ReceiveStep, InterruptStep, AllocStep, OpenStep, GrowStep, SwitchStep, CreateStep, ExitStep;
    match e {
      case Send(edx, ecx, ebx, t, g) => SendStays(s, edx, ecx, ebx, t, g);
      case Receive(ecx, t, next) => ReceiveStays(s, ecx, t, next);
      case Interrupt(p, t, g) => InterruptStays(s, p, t, g);
      case Create(p, cr3, thread, t, g) => CreateStays(s, p, cr3, thread, t, g);
      case Exit(next) => ExitStays(s, next);
      case Switch(next) => SwitchStays(s, next);
      case AllocMemory(ecx, t, g) => AllocStays(s, ecx, t, g);
      case OpenPhysical(frame, ecx, t) => OpenStays(s, frame, ecx, t);
      case GrowStack(v, t, g) => GrowStays(s, v, t, g);
    }
  }

  lemma SendProcs(s: Sys, edx: Pid, ecx: nat, ebx: int, t: Frame, g: Frame)
    requires CanSend(s, edx, ecx, t, g)
    ensures SendStep(s, edx, ecx, ebx, t, g).procs.Keys == s.procs.Keys
  {
    hide Lookup, DirEntry, Wf, Tiled;
    if HasPage(s, ecx) && Listed(s, edx) && s.procs[edx].receiving > 0 {
      EnsureKeeps(s, edx, s.procs[edx].cx, t);
    }
  }

  lemma ReceiveProcs(s: Sys, ecx: nat, t: Frame, next: Pid)
    requires CanReceive(s, ecx, t, next)
    ensures ReceiveStep(s, ecx, t, next).procs.Keys == s.procs.Keys
  {
    hide Lookup, DirEntry, Wf, Tiled;
    if GoodAddress(ecx) && !(Lookup(s, s.current, PageOf(ecx)).Page? && Lookup(s, s.current, PageOf(ecx)).phy) {
      ClearedKeeps(s, PageOf(ecx));
      if s.procs[s.current].queue != [] { var _ := FetchParts(s, ecx, t, next); }
    }
  }

  lemma InterruptProcs(s: Sys, p: Pid, t: Frame, g: Frame)
    requires CanInterrupt(s, p, t, g)
    ensures InterruptStep(s, p, t, g).procs.Keys == s.procs.Keys
  {
    if s.procs[p].receiving > 0 { EnsureKeeps(s, p, s.procs[p].cx, t); }
  }

  lemma AllocProcs(s: Sys, ecx: nat, t: Frame, g: Frame)
    requires CanAlloc(s, ecx, t, g)
    ensures AllocStep(s, ecx, t, g).procs.Keys == s.procs.Keys
  {
    EnsureKeeps(s, s.current, PageOf(ecx), t);
  }

  lemma OpenProcs(s: Sys, frame: Frame, ecx: nat, t: Frame)
    requires CanOpen(s, ecx, t)
    ensures OpenStep(s, frame, ecx, t).procs.Keys == s.procs.Keys
  {
    EnsureKeeps(s, s.current, PageOf(ecx), t);
  }

  lemma GrowProcs(s: Sys, v: nat, t: Frame, g: Frame)
    requires CanGrow(s, v, t, g)
    ensures GrowStep(s, v, t, g).procs.Keys == s.procs.Keys
  {
    EnsureKeeps(s, s.current, v, t);
  }

  lemma CreateProcs(s: Sys, p: Pid, cr3: Frame, thread: Frame, t: Frame, g: Frame)
    requires CanCreate(s, p, cr3, thread, t, g)
    ensures CreateStep(s, p, cr3, thread, t, g).procs.Keys == s.procs.Keys + {p}
  {
    assert CreateStep(s, p, cr3, thread, t, g).procs == s.procs[p := NewProc(cr3, thread)];
  }

  lemma ExitProcs(s: Sys, next: Pid)
    requires CanExit(s, next)
    ensures ExitStep(s, next).procs.Keys == s.procs.Keys - {s.current}
  {
    assert ProcOk(s, s.current);
    hide Recycled, NoStack;
    assert ExitStep(s, next).procs == (s.procs - {s.current})[next := s.procs[next].(flag := 2)];
  }

  /** Only creation adds a process. */
  lemma StepProcs(s: Sys, e: Step)
    requires Enabled(s, e)
    ensures e.Create? ==> Next(s, e).procs.Keys == s.procs.Keys + {e.p}
    ensures e.Exit? ==> Next(s, e).procs.Keys == s.procs.Keys - {s.current}
    ensures !e.Create? && !e.Exit? ==> Next(s, e).procs.Keys == s.procs.Keys
  {
    hide Lookup, DirEntry, ProcOk, EnsureTable, SetPte, Tiled, SendStep, ReceiveStep, InterruptStep;
    match e {
      case Send(edx, ecx, ebx, t, g) => SendProcs(s, edx, ecx, ebx, t, g);
      case Receive(ecx, t, next) => ReceiveProcs(s, ecx, t, next);
      case Interrupt(p, t, g) => InterruptProcs(s, p, t, g);
      case Create(p, cr3, thread, t, g) => CreateProcs(s, p, cr3, thread, t, g);
      case Exit(next) => ExitProcs(s, next);
      case Switch(next) =>
      case AllocMemory(ecx, t, g) => AllocProcs(s, ecx, t, g);
      case OpenPhysical(frame, ecx, t) => OpenProcs(s, frame, ecx, t);
      case GrowStack(v, t, g) => GrowProcs(s, v, t, g);
    }
  }

  /** The top stack table outlives every step. */
  lemma StepStacked(s: Sys, e: Step)
    requires Enabled(s, e) && Wf(s) && Harmless(s, e) && Stacked(s)
    ensures Stacked(Next(s, e))
  {
    StepStays(s, e);
    StepProcs(s, e);
    hide Next;
    if e.Create? {
      assert Next(s, e) == CreateStep(s, e.p, e.cr3, e.thread, e.t, e.g);
      CreateStays(s, e.p, e.cr3, e.thread, e.t, e.g);
    }
  }

  /** So every process of a run that began with the boot state can be disposed of. */
  lemma {:induction false} TraceStacked(ss: seq<Sys>, es: seq<Step>, n: nat)
    requires Trace(ss, es) && Stacked(ss[0]) && n <= |es|
    ensures Stacked(ss[n])
  {
    hide Next, Enabled, Harmless, Wf;
    if n > 0 {
      TraceStacked(ss, es, n - 1);
      assert StepAt(ss, es, n - 1);
      StepStacked(ss[n - 1], es[n - 1]);
    }
  }

  lemma BootStacked(managed: set<Frame>, kernel: map<Frame, seq<Pte>>, upper: Upper,
                    cr3: Frame, thread: Frame, t: Frame, g: Frame)
    requires BootPages(managed, cr3, thread, t, g) && KernelSpace(managed, kernel, upper)
    ensures Stacked(Boot(managed, kernel, upper, cr3, thread, t, g))
  {
    hide Lookup, Tiled, KernelSpace;
    BootTiled(managed, kernel, upper, cr3, thread, t, g);
    var s2 := WithTable(AddProc(NoProcs(managed, kernel), INIT, cr3, thread, upper), INIT, STACK_TOP_TABLE, t);
    MapFreeKeeps(s2, INIT, STACK_TOP_PAGE, g);
    RegistersStay(MapFree(s2, INIT, STACK_TOP_PAGE, g), Boot(managed, kernel, upper, cr3, thread, t, g));
  }
}
