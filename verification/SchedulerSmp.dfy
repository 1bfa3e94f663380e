// The scheduler with any number of CPUs (kernel/process/proc.c:48-73, 255-309,
// 506-513). Each step is what a CPU does while it holds scheduleLock, or one
// assignment it makes without the lock. Processes are numbered as they are made.
module SchedulerSmp {
  import opened Scheduler

  /** late: processes that gave up the CPU by NICE and whose flag is still to be
      reset. blocking: CPUs that marked their process asleep and have not called
      schedule(1) yet. dozing: processes off the CPU, not yet marked as receiving.
      waiting: marked. dying: off the CPU for good. booting: listed by a CPU that comes
      up, which has not gone on to mark them running. */
  datatype Smp = Smp(table: seq<Slot>, current: seq<nat>, late: set<nat>, blocking: set<nat>, dozing: set<nat>,
                     waiting: set<nat>, dying: set<nat>, booting: set<nat>)

  datatype Step =
    | Charge(c: nat)
    | Resched(c: nat, d: nat, table: seq<Slot>)
    | Block(c: nat)
    | Sleep(c: nat, d: nat, table: seq<Slot>)
    | Receive(p: nat)
    | Wake(p: nat)
    | Nice(c: nat, d: nat, table: seq<Slot>)
    | Reset(p: nat)
    | Kill(c: nat, d: nat, table: seq<Slot>)
    | Create(priority: nat)                  // newProcess: the process is listed, ready
    | Boot(priority: nat)                    // the same in init_proc_ap
    | Adopt(p: nat)                          // init_proc_ap: its flag set to 2, without the lock

  /** CPU c may call schedule(flag), which picks d. */
  ghost predicate MaySwitch(s: Smp, c: nat, flag: nat, d: nat, table: seq<Slot>) {
    && Words(s.table) && c < |s.current| && s.current[c] < |s.table|
    && Scheduled(s.table, s.current[c], flag, table, d)
  }

  ghost predicate Enabled(s: Smp, e: Step) {
    match e
    case Charge(c) => c < |s.current| && c !in s.blocking && s.current[c] < |s.table| && Words(s.table)
    case Resched(c, d, table) => c !in s.blocking && MaySwitch(s, c, 0, d, table)
    case Block(c) => c < |s.current| && c !in s.blocking && s.current[c] < |s.table|
    case Sleep(c, d, table) => c in s.blocking && MaySwitch(s, c, 1, d, table)
    case Receive(p) => p in s.dozing
    case Wake(p) => p in s.waiting && p < |s.table|
    case Nice(c, d, table) => c !in s.blocking && MaySwitch(s, c, 2, d, table)
    case Reset(p) => p in s.late && p < |s.table|
    case Kill(c, d, table) => c !in s.blocking && MaySwitch(s, c, 2, d, table)
    case Create(priority) => priority < 0x1_0000_0000
    case Boot(priority) => priority < 0x1_0000_0000
    case Adopt(p) => p in s.booting && p < |s.table|
  }

  function Made(t: seq<Slot>, priority: nat): seq<Slot>
    requires priority < 0x1_0000_0000
  {
    t + [Slot(0, S32(priority), priority)]
  }

  ghost function Next(s: Smp, e: Step): Smp
    requires Enabled(s, e)
  {
    match e
    case Charge(c) => s.(table := Charged(s.table, s.current[c]))
    case Resched(c, d, table) => s.(table := table, current := s.current[c := d])
    case Block(c) => s.(table := Flagged(s.table, s.current[c], 1), blocking := s.blocking + {c})
    case Sleep(c, d, table) =>
      s.(table := table, current := s.current[c := d], blocking := s.blocking - {c}, dozing := s.dozing + {s.current[c]})
    case Receive(p) => s.(dozing := s.dozing - {p}, waiting := s.waiting + {p})
    case Wake(p) =>
      s.(waiting := s.waiting - {p}, table := if s.table[p].flag == 1 then Flagged(s.table, p, 0) else s.table)
    case Nice(c, d, table) => s.(table := table, current := s.current[c := d], late := s.late + {s.current[c]})
    case Reset(p) => s.(table := Flagged(s.table, p, 0), late := s.late - {p})
    case Kill(c, d, table) => s.(table := table, current := s.current[c := d], dying := s.dying + {s.current[c]})
    case Create(priority) => s.(table := Made(s.table, priority))
    case Boot(priority) => s.(table := Made(s.table, priority), booting := s.booting + {|s.table|})
    case Adopt(p) => s.(table := Flagged(s.table, p, 2), current := s.current + [p], booting := s.booting - {p})
  }

  // ----------------------------------------------------------------- invariant

  /** What a process is doing. */
  datatype Role = Idle | Running(c: nat) | Late | Dozing | Waiting | Dying

  ghost predicate Plays(s: Smp, p: nat, r: Role) {
    match r
    case Idle => p < |s.table| && s.table[p].flag == 0
    case Running(c) => c < |s.current| && s.current[c] == p
    case Late => p in s.late
    case Dozing => p in s.dozing
    case Waiting => p in s.waiting
    case Dying => p in s.dying
  }

  /** The flag that goes with it. */
  ghost function FlagOf(s: Smp, r: Role): nat {
    match r
    case Idle => 0
    case Running(c) => if c in s.blocking then 1 else 2
    case Late => 2
    case Dozing => 1
    case Waiting => 1
    case Dying => 2
  }

  /** No process has two roles, and each has the flag of its role. */
  ghost predicate Inv(s: Smp) {
    && Words(s.table) && (forall c :: c in s.blocking ==> c < |s.current|)
    && (forall p: nat, r :: Plays(s, p, r) ==> p < |s.table| && s.table[p].flag == FlagOf(s, r))
    && forall p: nat, r, q :: Plays(s, p, r) && Plays(s, p, q) ==> r == q
  }

  /** As init_proc leaves it: one CPU with the first process. */
  function Start(priority: nat): Smp
    requires priority < 0x1_0000_0000
  {
    Smp([Slot(2, S32(priority), priority)], [0], {}, {}, {}, {}, {}, {})
  }

  lemma StartInv(priority: nat)
    requires priority < 0x1_0000_0000
    ensures Inv(Start(priority))
  {
  }

  /** Every CPU runs a process of its own, marked running or on its way to sleep. */
  lemma CurrentsDistinct(s: Smp, b: nat, c: nat)
    requires Inv(s) && b < |s.current| && c < |s.current| && b != c
    ensures s.current[b] != s.current[c]
    ensures s.current[b] < |s.table| && s.table[s.current[b]].flag == if b in s.blocking then 1 else 2
  {
    assert Plays(s, s.current[b], Running(b)) && Plays(s, s.current[c], Running(c));
  }

  /** schedule picks a process that was ready, or keeps the one it has on a tick. */
  lemma PicksReady(s: Smp, c: nat, flag: nat, d: nat, table: seq<Slot>)
    requires Inv(s) && MaySwitch(s, c, flag, d, table)
    ensures d == s.current[c] || Plays(s, d, Idle)
    ensures d == s.current[c] ==> flag == 0
    ensures |table| == |s.table| && Words(table)
    ensures forall p :: 0 <= p < |table| ==>
              table[p].flag == if p == d then 2 else if p == s.current[c] then flag else s.table[p].flag
  {
  }

  /** The roles after schedule: the process that ran takes on role o, d runs. */
  lemma SwitchKeeps(s: Smp, c: nat, flag: nat, d: nat, t: Smp, o: Role)
    requires Inv(s) && MaySwitch(s, c, flag, d, t.table) && t.current == s.current[c := d]
    requires t.blocking == s.blocking - {c}
    requires o != Running(c) && (forall b :: o == Running(b) ==> b == c) && FlagOf(t, o) == flag
    requires o == Idle <==> flag == 0
    requires forall p, r: Role :: !r.Idle? && !r.Running? ==>
               (Plays(t, p, r) <==> Plays(s, p, r) || (p == s.current[c] && r == o))
    ensures Inv(t)
  {
    PicksReady(s, c, flag, d, t.table);
    var was := s.current[c];
    assert Plays(s, was, Running(c));
    forall p: nat, r: Role | Plays(t, p, r)
      ensures p < |t.table| && t.table[p].flag == FlagOf(t, r)
      ensures if p == d then r == Running(c) else if p == was then r == o else Plays(s, p, r)
    {
      if r.Running? && r.c != c { assert Plays(s, p, r); }
      if r.Idle? && p != was { assert Plays(s, p, Idle); }
    }
  }

  lemma ChargeKeeps(s: Smp, c: nat)
    requires Inv(s) && Enabled(s, Charge(c))
    ensures Inv(Next(s, Charge(c)))
  {
    var t := Next(s, Charge(c));
    forall p: nat, r: Role
      ensures Plays(t, p, r) <==> Plays(s, p, r)
    {
    }
  }

  lemma MadeKeeps(s: Smp, e: Step)
    requires Inv(s) && Enabled(s, e) && (e.Create? || e.Boot?)
    ensures Inv(Next(s, e))
  {
    var t := Next(s, e);
    forall p: nat, r: Role
      ensures Plays(t, p, r) <==> Plays(s, p, r) || (p == |s.table| && r == Idle)
    {
    }
  }

  /** Some CPU has process p in hand. */
  ghost predicate Taken(s: Smp, p: nat) {
    exists r: Role :: !r.Idle? && Plays(s, p, r)
  }

  /** A CPU that comes up lists its process before it marks it running. The invariant
      survives that exactly if no other CPU has taken the process up in between. */
  lemma AdoptKeeps(s: Smp, p: nat)
    requires Inv(s) && Enabled(s, Adopt(p))
    ensures Inv(Next(s, Adopt(p))) <==> !Taken(s, p)
    ensures s.table[p].flag == 0 ==> !Taken(s, p)
  {
    var t, c := Next(s, Adopt(p)), |s.current|;
    assert t.current[c] == p && Plays(t, p, Running(c));
    if r: Role :| !r.Idle? && Plays(s, p, r) {
      assert r != Running(c) && Plays(t, p, r);
    } else {
      forall q: nat, r: Role
        ensures Plays(t, q, r) <==> (q == p && r == Running(c)) || (Plays(s, q, r) && q != p)
      {
      }
    }
  }

  /** What the code leaves to chance. */
  ghost predicate Harmless(s: Smp, e: Step) {
    e.Adopt? ==> !Taken(s, e.p)
  }

  lemma StepKeeps(s: Smp, e: Step)
    requires Inv(s) && Enabled(s, e) && Harmless(s, e)
    ensures Inv(Next(s, e))
  {
    hide Inv, MaySwitch, Plays, Taken;
    match e {
      case Charge(c) => ChargeKeeps(s, c);
      case Resched(c, d, table) => ReschedKeeps(s, c, d, table);
      case Sleep(c, d, table) => SleepKeeps(s, c, d, table);
      case Nice(c, d, table) => NiceKeeps(s, c, d, table);
      case Kill(c, d, table) => KillKeeps(s, c, d, table);
      case Block(c) => BlockKeeps(s, c);
      case Receive(p) => ReceiveKeeps(s, p);
      case Wake(p) => WakeKeeps(s, p);
      case Reset(p) => ResetKeeps(s, p);
      case Create(_) => MadeKeeps(s, e);
      case Boot(_) => MadeKeeps(s, e);
      case Adopt(p) => AdoptKeeps(s, p);
    }
  }

  lemma ReschedKeeps(s: Smp, c: nat, d: nat, table: seq<Slot>)
    requires Inv(s) && Enabled(s, Resched(c, d, table))
    ensures Inv(Next(s, Resched(c, d, table)))
  {
    hide Inv, MaySwitch;
    SwitchKeeps(s, c, 0, d, Next(s, Resched(c, d, table)), Idle);
  }

  lemma SleepKeeps(s: Smp, c: nat, d: nat, table: seq<Slot>)
    requires Inv(s) && Enabled(s, Sleep(c, d, table))
    ensures Inv(Next(s, Sleep(c, d, table)))
  {
    hide Inv, MaySwitch;
    SwitchKeeps(s, c, 1, d, Next(s, Sleep(c, d, table)), Dozing);
  }

  lemma NiceKeeps(s: Smp, c: nat, d: nat, table: seq<Slot>)
    requires Inv(s) && Enabled(s, Nice(c, d, table))
    ensures Inv(Next(s, Nice(c, d, table)))
  {
    hide Inv, MaySwitch;
    SwitchKeeps(s, c, 2, d, Next(s, Nice(c, d, table)), Late);
  }

  lemma KillKeeps(s: Smp, c: nat, d: nat, table: seq<Slot>)
    requires Inv(s) && Enabled(s, Kill(c, d, table))
    ensures Inv(Next(s, Kill(c, d, table)))
  {
    hide Inv, MaySwitch;
    SwitchKeeps(s, c, 2, d, Next(s, Kill(c, d, table)), Dying);
  }

  lemma BlockKeeps(s: Smp, c: nat)
    requires Inv(s) && Enabled(s, Block(c))
    ensures Inv(Next(s, Block(c)))
  {
    var t := Next(s, Block(c));
    assert Plays(s, s.current[c], Running(c));
    forall p: nat, r: Role
      ensures Plays(t, p, r) <==> Plays(s, p, r)
    {
    }
    forall p: nat, r: Role | Plays(t, p, r)
      ensures t.table[p].flag == FlagOf(t, r)
    {
      assert Plays(s, p, r);
      if r == Running(c) { assert p == s.current[c]; }
    }
  }

  lemma ReceiveKeeps(s: Smp, p: nat)
    requires Inv(s) && Enabled(s, Receive(p))
    ensures Inv(Next(s, Receive(p)))
  {
    var t := Next(s, Receive(p));
    assert Plays(s, p, Dozing);
    forall q: nat, r: Role
      ensures Plays(t, q, r) <==> (q == p && r == Waiting) || (Plays(s, q, r) && q != p)
    {
      if Plays(s, q, r) && q == p { assert r == Dozing; }
    }
  }

  /** The wake-up finds the flag at 1. */
  lemma WakeKeeps(s: Smp, p: nat)
    requires Inv(s) && Enabled(s, Wake(p))
    ensures s.table[p].flag == 1 && Inv(Next(s, Wake(p)))
  {
    var t := Next(s, Wake(p));
    assert Plays(s, p, Waiting);
    forall q: nat, r: Role
      ensures Plays(t, q, r) <==> (q == p && r == Idle) || (Plays(s, q, r) && q != p)
    {
      if Plays(s, q, r) && q == p { assert r == Waiting; }
    }
  }

  /** The late reset finds the process off every CPU, its flag still 2. */
  lemma ResetKeeps(s: Smp, p: nat)
    requires Inv(s) && Enabled(s, Reset(p))
    ensures s.table[p].flag == 2 && (forall c :: 0 <= c < |s.current| ==> s.current[c] != p)
    ensures Inv(Next(s, Reset(p)))
  {
    var t := Next(s, Reset(p));
    assert Plays(s, p, Late);
    forall c | 0 <= c < |s.current|
      ensures s.current[c] != p
    {
      assert Plays(s, s.current[c], Running(c));
    }
    forall q: nat, r: Role
      ensures Plays(t, q, r) <==> (q == p && r == Idle) || (Plays(s, q, r) && q != p)
    {
      if Plays(s, q, r) && q == p { assert r == Late; }
    }
  }

  // ------------------------------------------------------- what each step does

  ghost predicate Switches(e: Step) { e.Resched? || e.Sleep? || e.Nice? || e.Kill? }

  /** The process picked by a step runs on the CPU that picked it; the one before is ready
      after a tick, late after NICE, dozing after RECEIVE, and gone after its end. The others
      are as they were. */
  lemma SwitchRoles(s: Smp, e: Step)
    requires Inv(s) && Enabled(s, e) && Switches(e)
    ensures var u, c, was := Next(s, e), e.c, s.current[e.c];
            && u.current == s.current[c := e.d] && c !in u.blocking
            && Plays(u, e.d, Running(c)) && u.table[e.d].flag == 2
            && (e.d == was ==> e.Resched?)
            && (e.d != was ==>
                  Plays(u, was, if e.Resched? then Idle else if e.Nice? then Late else if e.Sleep? then Dozing else Dying))
            && (forall p: nat, r :: p != e.d && p != was ==> (Plays(u, p, r) <==> Plays(s, p, r)))
            && (forall p :: 0 <= p < |s.table| && p != e.d && p != was ==> u.table[p].flag == s.table[p].flag)
  {
    var flag := if e.Resched? then 0 else if e.Sleep? then 1 else 2;
    PicksReady(s, e.c, flag, e.d, e.table);
    var u, was := Next(s, e), s.current[e.c];
    assert Plays(s, was, Running(e.c));
    forall p: nat, r | p != e.d && p != was
      ensures Plays(u, p, r) <==> Plays(s, p, r)
    {
    }
  }

  /** The steps of a process or a CPU alone: marked asleep it still runs, marked as receiving
      it waits, woken or reset it is ready; a new one is listed ready, and that of a CPU that
      comes up runs there. */
  lemma LoneRoles(s: Smp, e: Step)
    requires Inv(s) && Enabled(s, e) && !Switches(e)
    ensures var u := Next(s, e);
            match e
            case Charge(c) =>
              var p := s.current[c];
              u == s.(table := s.table[p := s.table[p].(ticks := S32(s.table[p].ticks - 1))])
            case Block(c) =>
              && Plays(u, s.current[c], Running(c)) && u.table[s.current[c]].flag == 1 && u.blocking == s.blocking + {c}
            case Receive(p) => Plays(u, p, Waiting) && !Plays(u, p, Dozing) && u.table == s.table
            case Wake(p) => Plays(u, p, Idle) && !Plays(u, p, Waiting)
            case Reset(p) => Plays(u, p, Idle) && !Plays(u, p, Late)
            case Create(priority) => Plays(u, |s.table|, Idle) && u.table[..|s.table|] == s.table && u.booting == s.booting
            case Boot(priority) =>
              Plays(u, |s.table|, Idle) && u.table[..|s.table|] == s.table && u.booting == s.booting + {|s.table|}
            case Adopt(p) => Plays(u, p, Running(|s.current|)) && u.table[p].flag == 2 && p !in u.booting
  {
    match e {
      case Block(c) => assert Plays(s, s.current[c], Running(c));
      case Wake(p) => assert Plays(s, p, Waiting);
      case Reset(p) => assert Plays(s, p, Late);
      case _ =>
    }
  }

  /** No step changes a priority, and a new process has the one it was made with. */
  lemma PrioritiesStay(s: Smp, e: Step)
    requires Inv(s) && Enabled(s, e)
    ensures |Next(s, e).table| == |s.table| + if e.Create? || e.Boot? then 1 else 0
    ensures forall p :: 0 <= p < |s.table| ==> Next(s, e).table[p].priority == s.table[p].priority
    ensures e.Create? || e.Boot? ==> Next(s, e).table[|s.table|].priority == e.priority
  {
  }

  ghost predicate StepAt(ss: seq<Smp>, es: seq<Step>, k: nat)
    requires k < |es| && |ss| == |es| + 1
  {
    Enabled(ss[k], es[k]) && ss[k + 1] == Next(ss[k], es[k])
  }

  /** However the CPUs interleave, if each takes up its first process before another
      does: at every moment their processes are distinct and each is marked running, or
      on its way to sleep and picked by nobody. */
  lemma {:induction false} RunKeeps(ss: seq<Smp>, es: seq<Step>, n: nat)
    requires |ss| == |es| + 1 && n <= |es| && Inv(ss[0])
    requires forall k :: 0 <= k < |es| ==> StepAt(ss, es, k) && Harmless(ss[k], es[k])
    ensures Inv(ss[n])
    ensures forall b, c :: 0 <= b < c < |ss[n].current| ==> ss[n].current[b] != ss[n].current[c]
  {
    hide Inv, Harmless, Next, Enabled;
    if n > 0 {
      RunKeeps(ss, es, n - 1);
      assert StepAt(ss, es, n - 1) && Harmless(ss[n - 1], es[n - 1]);
      StepKeeps(ss[n - 1], es[n - 1]);
    }
    forall b, c | 0 <= b < c < |ss[n].current|
      ensures ss[n].current[b] != ss[n].current[c]
    {
      CurrentsDistinct(ss[n], b, c);
    }
  }

  /** A run in which one does not: the second CPU lists its process, the first one gives
      way to it, and then the second CPU takes it up as well. */
  lemma TakenTwice() returns (ss: seq<Smp>, es: seq<Step>)
    ensures |ss| == |es| + 1 == 4 && ss[0] == Start(1) && forall k :: 0 <= k < |es| ==> StepAt(ss, es, k)
    ensures ss[3].current == [1, 1]
  {
    var a := Start(1);
    var table := [Slot(2, 1, 1), Slot(2, 1, 1)];
    var b := Next(a, Boot(1));
    assert Enabled(b, Nice(0, 1, table)) by {
      var f := Flagged(b.table, 0, 2);
      assert f == [Slot(2, 1, 1), Slot(0, 1, 1)] && Live(f[1]);
    }
    var c := Next(b, Nice(0, 1, table));
    ss, es := [a, b, c, Next(c, Adopt(1))], [Boot(1), Nice(0, 1, table), Adopt(1)];
  }
}
