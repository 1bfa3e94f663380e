// Messages over whole runs of the process machine (kernel/process/proc.c:332-463): what
// the calls of a run accepted for a process, what it was handed, and what is in its ring.
module Fifo {
  import opened Pages
  import opened Dispose
  import opened Ipc

  /** The message a step gets accepted for process p: a send that returns 1, an interrupt
      that is not dropped. u is the state after the step. */
  ghost function AcceptedBy(s: Sys, e: Step, u: Sys, p: Pid): seq<Msg>
    requires Enabled(s, e) && s.current in s.procs && (e.Send? ==> s.current in u.procs)
  {
    match e
    case Send(edx, ecx, ebx, _, _) => if edx == p && u.procs[s.current].ax == 1 then Carried(s, ecx, ebx) else []
    case Interrupt(q, _, g) =>
      if q == p && (s.procs[q].receiving > 0 || |s.procs[q].queue| < MAX_MESSAGES) then [Msg(MINUS_ONE, g)] else []
    case _ => []
  }

  /** The page at the address, from the sender named in ebx or the caller. */
  ghost function Carried(s: Sys, ecx: nat, ebx: int): seq<Msg>
    requires Wf(s)
  {
    if Lookup(s, s.current, PageOf(ecx)).Page? then [Parcel(s, ecx, ebx)] else []
  }

  /** The message process p is handed by a step: what its result register and its page
      table show when its own receive does not put it to sleep, or when a send or an
      interrupt ends its wait. */
  ghost function HandedBy(s: Sys, e: Step, u: Sys, p: Pid): seq<Msg>
    requires Wf(s) && Wf(u) && p in s.procs && p in u.procs
  {
    match e
    case Receive(ecx, _, _) =>
      if s.current == p && Receivable(s, ecx) && u.procs[p].receiving == 0 then Shown(u, p, PageOf(ecx)) else []
    case _ =>
      if s.procs[p].receiving > 0 && u.procs[p].receiving == 0 then Shown(u, p, s.procs[p].cx) else []
  }

  ghost predicate Receivable(s: Sys, ecx: nat)
    requires Wf(s)
  {
    GoodAddress(ecx) && (Lookup(s, s.current, PageOf(ecx)).Page? ==> !Lookup(s, s.current, PageOf(ecx)).phy)
  }

  ghost function Shown(u: Sys, p: Pid, v: nat): seq<Msg>
    requires Wf(u) && p in u.procs
  {
    if Lookup(u, p, v).Page? then [Msg(u.procs[p].ax, Lookup(u, p, v).frame)] else []
  }

  /** The logs of process p grow by just those messages. */
  ghost predicate Grows(s: Sys, e: Step, u: Sys, p: Pid)
    requires Enabled(s, e) && s.current in s.procs && Wf(s) && Wf(u) && p in s.procs && p in u.procs
    requires e.Send? ==> s.current in u.procs
  {
    && p in s.log && p in u.log
    && u.log[p].accepted == s.log[p].accepted + AcceptedBy(s, e, u, p)
    && u.log[p].received == s.log[p].received + HandedBy(s, e, u, p)
  }

  lemma RecordOk(s: Sys, p: Pid)
    requires Inv(s) && p in s.procs
    ensures p in s.log && Logged(s, p) && s.procs[p].receiving <= 1
    ensures s.procs[p].receiving == 0 ||
            (p != s.current && s.procs[p].cx < USER_PAGES && s.procs[p].queue == [] && s.log[p].accepted == s.log[p].received)
  {
    assert ProcOk(s, p);
  }

  /** The receiver of a message delivered directly. */
  lemma DeliveredShown(s: Sys, edx: Pid, ecx: nat, ebx: int, t: Frame, g: Frame)
    requires CanSend(s, edx, ecx, t, g) && HasPage(s, ecx) && Listed(s, edx) && s.procs[edx].receiving > 0
    ensures var u, m := SendStep(s, edx, ecx, ebx, t, g), Parcel(s, ecx, ebx);
            && Inv(u) && edx in u.procs && u.procs.Keys == s.procs.Keys
            && u.procs[edx].ax == m.sender && u.procs[edx].receiving == s.procs[edx].receiving - 1
            && Lookup(u, edx, s.procs[edx].cx) == Page(m.frame, false)
            && forall p :: p in s.procs && p != edx ==> p in u.procs && u.procs[p].receiving == s.procs[p].receiving
  {
    hide Lookup, DirEntry, Wf, Tiled, Waiting, HasTable, SetPte;
    DeliveredThere(s, edx, ecx, ebx, t, g);
    RecordOk(s, edx);
    DeliveredRecords(s, edx, PageOf(ecx), Parcel(s, ecx, ebx).sender, t, g);
  }

  lemma DeliveredRecords(s: Sys, q: Pid, v: nat, sender: int, t: Frame, g: Frame)
    requires CanDeliver(s, q, t, g) && v < USER_PAGES && Lookup(s, s.current, v).Page? && !Lookup(s, s.current, v).phy
    ensures Deliver(s, q, v, sender, t, g).procs == s.procs[q := Roused(s.procs[q], sender)]
  {
    hide Lookup, DirEntry, Wf, Tiled, HasTable;
    RecordOk(s, q);
    EnsureKeeps(s, q, s.procs[q].cx, t);
  }

  lemma DeliveredGrows(s: Sys, edx: Pid, ecx: nat, ebx: int, t: Frame, g: Frame, p: Pid)
    requires CanSend(s, edx, ecx, t, g) && p in s.procs && HasPage(s, ecx) && Listed(s, edx) && s.procs[edx].receiving > 0
    ensures var u := SendStep(s, edx, ecx, ebx, t, g);
            && Inv(u) && p in u.procs && s.current in u.procs && s.current in s.procs
            && Grows(s, Send(edx, ecx, ebx, t, g), u, p)
  {
    hide Lookup, DirEntry, Wf, Tiled, Waiting, TableReady, HasTable, SendStep, CanDeliver, ProcOk;
    SendAccepts(s, edx, ecx, ebx, t, g);
    RecordOk(s, p);
    AcceptedLog(s, edx, ecx, ebx, t, g);
    RecordOk(s, edx);
    DeliveredShown(s, edx, ecx, ebx, t, g);
  }

  lemma PostedGrows(s: Sys, edx: Pid, ecx: nat, ebx: int, t: Frame, g: Frame, p: Pid)
    requires CanSend(s, edx, ecx, t, g) && p in s.procs && HasPage(s, ecx) && Listed(s, edx)
    requires s.procs[edx].receiving == 0 && |s.procs[edx].queue| < MAX_MESSAGES
    ensures var u := SendStep(s, edx, ecx, ebx, t, g);
            && Inv(u) && p in u.procs && s.current in u.procs && s.current in s.procs
            && Grows(s, Send(edx, ecx, ebx, t, g), u, p)
  {
    hide Lookup, DirEntry, Wf, Tiled, Waiting, TableReady, HasTable, SendStep, CanDeliver, ProcOk;
    SendKeeps(s, edx, ecx, ebx, t, g);
    SendAccepts(s, edx, ecx, ebx, t, g);
    RecordOk(s, p);
    AcceptedLog(s, edx, ecx, ebx, t, g);
    PostedRecords(s, edx, ecx, ebx, t, g, p);
  }

  lemma SendGrows(s: Sys, edx: Pid, ecx: nat, ebx: int, t: Frame, g: Frame, p: Pid)
    requires CanSend(s, edx, ecx, t, g) && p in s.procs
    ensures var u := SendStep(s, edx, ecx, ebx, t, g);
            && Inv(u) && p in u.procs && s.current in u.procs && s.current in s.procs
            && Grows(s, Send(edx, ecx, ebx, t, g), u, p)
  {
    hide Lookup, DirEntry, Wf, Tiled, Waiting, TableReady, HasTable, SendStep, CanDeliver, ProcOk;
    if HasPage(s, ecx) && Listed(s, edx) && s.procs[edx].receiving > 0 {
      DeliveredGrows(s, edx, ecx, ebx, t, g, p);
    } else if HasPage(s, ecx) && Listed(s, edx) && |s.procs[edx].queue| < MAX_MESSAGES {
      PostedGrows(s, edx, ecx, ebx, t, g, p);
    } else {
      SendKeeps(s, edx, ecx, ebx, t, g);
      SendAccepts(s, edx, ecx, ebx, t, g);
      RecordOk(s, p);
    }
  }

  lemma PostedRecords(s: Sys, edx: Pid, ecx: nat, ebx: int, t: Frame, g: Frame, p: Pid)
    requires CanSend(s, edx, ecx, t, g) && HasPage(s, ecx) && Listed(s, edx) && p in s.procs
    requires s.procs[edx].receiving == 0 && |s.procs[edx].queue| < MAX_MESSAGES
    ensures var u := SendStep(s, edx, ecx, ebx, t, g);
            p in u.procs && u.procs[p].receiving == s.procs[p].receiving
  {
    hide Lookup, DirEntry, Wf, Tiled, Waiting, TableReady, HasTable;
  }

  lemma ReceiveGrows(s: Sys, ecx: nat, t: Frame, next: Pid, p: Pid)
    requires CanReceive(s, ecx, t, next) && p in s.procs
    ensures var u := ReceiveStep(s, ecx, t, next);
            Inv(u) && p in u.procs && s.current in s.procs && Grows(s, Receive(ecx, t, next), u, p)
  {
    hide Lookup, DirEntry, Wf, Tiled, TableReady, HasTable, Fetch, EnsureTable, UnmapFree, ProcOk;
    ReceiveKeeps(s, ecx, t, next);
    RecordOk(s, p);
    RecordOk(s, s.current);
    ReceiveRecords(s, ecx, t, next, p);
    if Receivable(s, ecx) {
      ReceiveGets(s, ecx, t, next);
    }
  }

  lemma ReceiveRecords(s: Sys, ecx: nat, t: Frame, next: Pid, p: Pid)
    requires CanReceive(s, ecx, t, next) && p in s.procs
    ensures var u := ReceiveStep(s, ecx, t, next);
            && p in u.procs && s.current in u.procs
            && (p != s.current ==> u.procs[p].receiving == s.procs[p].receiving)
            && (!Receivable(s, ecx) ==> u.log == s.log)
            && (Receivable(s, ecx) && s.procs[s.current].queue != [] ==> u.procs[s.current].receiving == s.procs[s.current].receiving)
  {
    hide Lookup, DirEntry, Wf, Tiled, TableReady, HasTable;
    CurrentOk(s);
    if Receivable(s, ecx) {
      ClearedKeeps(s, PageOf(ecx));
      if s.procs[s.current].queue != [] { var _ := FetchParts(s, ecx, t, next); }
    }
  }

  lemma InterruptGrows(s: Sys, q: Pid, t: Frame, g: Frame, p: Pid)
    requires CanInterrupt(s, q, t, g) && p in s.procs
    ensures var u := InterruptStep(s, q, t, g);
            Inv(u) && p in u.procs && s.current in s.procs && Grows(s, Interrupt(q, t, g), u, p)
  {
    hide Lookup, DirEntry, Wf, Tiled, TableReady, HasTable, Waiting, ProcOk;
    InterruptKeeps(s, q, t, g);
    RecordOk(s, p);
    RecordOk(s, q);
    if s.procs[q].receiving > 0 {
      InterruptShown(s, q, t, g);
    }
  }

  lemma InterruptShown(s: Sys, q: Pid, t: Frame, g: Frame)
    requires CanInterrupt(s, q, t, g) && s.procs[q].receiving > 0 && Inv(InterruptStep(s, q, t, g))
    ensures var u := InterruptStep(s, q, t, g);
            && u.procs == s.procs[q := Roused(s.procs[q], MINUS_ONE)]
            && q in s.log && u.log == s.log[q := Log(s.log[q].accepted + [Msg(MINUS_ONE, g)], s.log[q].received + [Msg(MINUS_ONE, g)])]
            && Lookup(u, q, s.procs[q].cx) == Page(g, false)
  {
    hide Lookup, DirEntry, Wf, Tiled, HasTable;
    RecordOk(s, q);
    var w := s.procs[q].cx;
    EnsureKeeps(s, q, w, t);
    MapFreeKeeps(EnsureTable(s, q, w, t), q, w, g);
    Unmapped(MapFree(EnsureTable(s, q, w, t), q, w, g), InterruptStep(s, q, t, g));
  }

  /** The other calls hand nobody a message. */
  lemma OtherGrows(s: Sys, e: Step, p: Pid)
    requires Enabled(s, e) && p in s.procs && p in Next(s, e).procs && !e.Send? && !e.Receive? && !e.Interrupt?
    ensures p in s.log && p in Next(s, e).log && Next(s, e).log[p] == s.log[p]
    ensures Next(s, e).procs[p].receiving == s.procs[p].receiving
  {
    hide Lookup, DirEntry, Wf, Tiled, HasTable, TableReady, Waiting, ProcOk, EnsureTable, SetPte;
    if e.AllocMemory? || e.OpenPhysical? || e.GrowStack? {
      MappingGrows(s, e, p);
    } else {
      RecordsGrow(s, e, p);
    }
  }

  lemma RecordsGrow(s: Sys, e: Step, p: Pid)
    requires Enabled(s, e) && p in s.procs && p in Next(s, e).procs && (e.Create? || e.Switch? || e.Exit?)
    ensures p in s.log && p in Next(s, e).log && Next(s, e).log[p] == s.log[p]
    ensures Next(s, e).procs[p].receiving == s.procs[p].receiving
  {
    hide Lookup, DirEntry, Wf, Tiled, HasTable, TableReady, Waiting, ProcOk, Recycled, NoStack, UpperOf, NoTables, NoEntries;
    EnabledInv(s, e);
    RecordOk(s, p);
    NextElsewhere(s, e);
  }

  lemma NextElsewhere(s: Sys, e: Step)
    requires Enabled(s, e)
    ensures e.Exit? ==> s.current in s.procs && e.next != s.current
    ensures e.Create? ==> e.p !in s.procs
  {
    EnabledInv(s, e);
    assert ProcOk(s, s.current);
  }

  lemma MappingGrows(s: Sys, e: Step, p: Pid)
    requires Enabled(s, e) && p in s.procs && (e.AllocMemory? || e.OpenPhysical? || e.GrowStack?)
    ensures p in s.log && p in Next(s, e).procs && p in Next(s, e).log && Next(s, e).log[p] == s.log[p]
    ensures Next(s, e).procs[p].receiving == s.procs[p].receiving
  {
    hide Lookup, DirEntry, Wf, Tiled, HasTable, TableReady, Waiting, ProcOk;
    EnabledInv(s, e);
    RecordOk(s, p);
    match e {
      case AllocMemory(ecx, t, g) => EnsureKeeps(s, s.current, PageOf(ecx), t);
      case OpenPhysical(f, ecx, t) => EnsureKeeps(s, s.current, PageOf(ecx), t);
      case GrowStack(v, t, g) => EnsureKeeps(s, s.current, v, t);
    }
  }

  lemma StepGrows(s: Sys, e: Step, p: Pid)
    requires Enabled(s, e) && Wf(s) && Harmless(s, e) && p in s.procs && p in Next(s, e).procs
    ensures Inv(Next(s, e)) && s.current in s.procs && (e.Send? ==> s.current in Next(s, e).procs)
    ensures Grows(s, e, Next(s, e), p)
  {
    hide SendStep, ReceiveStep, InterruptStep, AllocStep, OpenStep, GrowStep, SwitchStep, CreateStep, ExitStep;
    hide Lookup, Tiled, Wf, DirEntry, ProcOk, Shown, Carried, Receivable;
    StepKeeps(s, e);
    match e {
      case Send(edx, ecx, ebx, t, g) => SendGrows(s, edx, ecx, ebx, t, g, p);
      case Receive(ecx, t, next) => ReceiveGrows(s, ecx, t, next, p);
      case Interrupt(q, t, g) => InterruptGrows(s, q, t, g, p);
      case _ => OtherGrows(s, e, p);
    }
  }

  // ------------------------------------------------------------------ whole runs

  /** Process p lives from state i to state j of the run. */
  ghost predicate Lives(ss: seq<Sys>, p: Pid, i: nat, j: nat)
    requires i <= j < |ss|
  {
    forall k :: i <= k <= j ==> p in ss[k].procs
  }

  ghost predicate Sound(ss: seq<Sys>, es: seq<Step>, p: Pid, k: nat)
    requires k < |es| && |ss| == |es| + 1
  {
    && Enabled(ss[k], es[k]) && Wf(ss[k]) && Wf(ss[k + 1]) && ss[k].current in ss[k].procs
    && p in ss[k].procs && p in ss[k + 1].procs && (es[k].Send? ==> ss[k].current in ss[k + 1].procs)
  }

  /** What the steps from i to j got accepted for p, in order. */
  ghost function AcceptedIn(ss: seq<Sys>, es: seq<Step>, p: Pid, i: nat, j: nat): seq<Msg>
    requires i <= j <= |es| && |ss| == |es| + 1
    decreases j
  {
    if i == j then []
    else AcceptedIn(ss, es, p, i, j - 1) + if Sound(ss, es, p, j - 1) then AcceptedBy(ss[j - 1], es[j - 1], ss[j], p) else []
  }

  /** What they handed to p, in order. */
  ghost function HandedIn(ss: seq<Sys>, es: seq<Step>, p: Pid, i: nat, j: nat): seq<Msg>
    requires i <= j <= |es| && |ss| == |es| + 1
    decreases j
  {
    if i == j then []
    else HandedIn(ss, es, p, i, j - 1) + if Sound(ss, es, p, j - 1) then HandedBy(ss[j - 1], es[j - 1], ss[j], p) else []
  }

  lemma {:induction false} TraceLogs(ss: seq<Sys>, es: seq<Step>, p: Pid, i: nat, j: nat)
    requires Trace(ss, es) && Inv(ss[0]) && i <= j <= |es| && Lives(ss, p, i, j)
    ensures p in ss[i].log && p in ss[j].log
    ensures ss[j].log[p].accepted == ss[i].log[p].accepted + AcceptedIn(ss, es, p, i, j)
    ensures ss[j].log[p].received == ss[i].log[p].received + HandedIn(ss, es, p, i, j)
    decreases j
  {
    hide Next, Enabled, Inv, Wf, Harmless, AcceptedBy, HandedBy;
    TraceKeeps(ss, es, j);
    TraceKeeps(ss, es, i);
    if i < j {
      TraceLogs(ss, es, p, i, j - 1);
      assert StepAt(ss, es, j - 1);
      StepGrows(ss[j - 1], es[j - 1], p);
      InvWf(ss[j]);
      assert Sound(ss, es, p, j - 1);
    } else {
      RecordOk(ss[i], p);
    }
  }

  lemma InvWf(s: Sys)
    requires Inv(s)
    ensures Wf(s)
  {
  }

  /** Exactly once and in order, over any stretch of any run: what was in the ring, and
      then what the calls of the stretch got accepted, is what the process was handed in
      it, and then what is in the ring. No message is lost, repeated or overtaken. */
  lemma TraceFifo(ss: seq<Sys>, es: seq<Step>, p: Pid, i: nat, j: nat)
    requires Trace(ss, es) && Inv(ss[0]) && i <= j <= |es| && Lives(ss, p, i, j)
    ensures ss[i].procs[p].queue + AcceptedIn(ss, es, p, i, j) == HandedIn(ss, es, p, i, j) + ss[j].procs[p].queue
  {
    hide Inv, StepAt, AcceptedIn, HandedIn;
    TraceLogs(ss, es, p, i, j);
    TraceKeeps(ss, es, i);
    TraceKeeps(ss, es, j);
    RecordOk(ss[i], p);
    RecordOk(ss[j], p);
    var a, b := AcceptedIn(ss, es, p, i, j), HandedIn(ss, es, p, i, j);
    var r, q, q2 := ss[i].log[p].received, ss[i].procs[p].queue, ss[j].procs[p].queue;
    assert r + (q + a) == r + q + a == r + b + q2 == r + (b + q2);
    SameRest(r, q + a, b + q2);
  }

  lemma SameRest(r: seq<Msg>, a: seq<Msg>, b: seq<Msg>)
    requires r + a == r + b
    ensures a == b
  {
    assert a == (r + a)[|r|..] && b == (r + b)[|r|..];
  }

  /** So a process whose ring was empty has been handed the first of what was accepted for
      it since, and the ring holds the rest. */
  lemma HandedFirst(ss: seq<Sys>, es: seq<Step>, p: Pid, i: nat, j: nat)
    requires Trace(ss, es) && Inv(ss[0]) && i <= j <= |es| && Lives(ss, p, i, j) && ss[i].procs[p].queue == []
    ensures HandedIn(ss, es, p, i, j) <= AcceptedIn(ss, es, p, i, j)
    ensures ss[j].procs[p].queue == AcceptedIn(ss, es, p, i, j)[|HandedIn(ss, es, p, i, j)|..]
  {
    hide Inv, StepAt;
    TraceFifo(ss, es, p, i, j);
    assert [] + AcceptedIn(ss, es, p, i, j) == AcceptedIn(ss, es, p, i, j);
  }
}
