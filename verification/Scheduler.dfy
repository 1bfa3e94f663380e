// The scheduler (kernel/process/proc.c:255-290) and the timer tick that charges the
// running process (kernel/process/timer.c:98-116), on one CPU.
module Scheduler {
  /** A process as the scheduler sees it. flag: 0 ready, 1 asleep, 2 running. */
  datatype Slot = Slot(flag: nat, ticks: int, priority: nat)

  /** A 32-bit word read as a signed one. */
  function S32(x: int): (r: int)
    requires -0x8000_0000 - 1 <= x < 0x1_0000_0000
    ensures -0x8000_0000 <= r < 0x8000_0000 && r in {x, x - 0x1_0000_0000, x + 0x1_0000_0000}
  {
    if x >= 0x8000_0000 then x - 0x1_0000_0000 else if x < -0x8000_0000 then x + 0x1_0000_0000 else x
  }

  /** The fields fit their words. */
  predicate Words(t: seq<Slot>) {
    forall i :: 0 <= i < |t| ==> -0x8000_0000 <= t[i].ticks < 0x8000_0000 && t[i].priority < 0x1_0000_0000
  }

  // -------------------------------------------------------------- the choice

  predicate Live(x: Slot) { x.flag == 0 && x.ticks > 0 }

  /** Process i has the most ticks of the ready ones, and is the first to. */
  ghost predicate Picks(t: seq<Slot>, i: nat) {
    && i < |t| && Live(t[i])
    && forall j :: 0 <= j < |t| && t[j].flag == 0 ==> t[j].ticks <= t[i].ticks && (j < i ==> t[j].ticks < t[i].ticks)
  }

  ghost predicate HasPick(t: seq<Slot>) {
    exists i :: 0 <= i < |t| && Live(t[i])
  }

  lemma PickUnique(t: seq<Slot>, i: nat, j: nat)
    requires Picks(t, i) && Picks(t, j)
    ensures i == j
  {
  }

  /** There is a pick as soon as anything is ready with ticks left. */
  lemma {:induction false} PickExists(t: seq<Slot>) returns (i: nat)
    requires HasPick(t)
    ensures Picks(t, i)
  {
    var n := |t| - 1;
    var s := t[..n];
    assert t == s + [t[n]];
    if HasPick(s) {
      i := PickExists(s);
      if t[n].flag == 0 && t[n].ticks > t[i].ticks {
        i := n;
      }
    } else {
      forall j | 0 <= j < n && t[j].flag == 0
        ensures t[j].ticks <= 0
      {
        assert !Live(s[j]);
      }
      i := n;
    }
  }

  function Refilled(x: Slot): Slot
    requires x.priority < 0x1_0000_0000
  {
    if x.flag == 0 then x.(ticks := S32(x.priority)) else x
  }

  /** Every ready process gets its priority in ticks. */
  function Refill(t: seq<Slot>): (r: seq<Slot>)
    requires Words(t)
    ensures |r| == |t| && Words(r) && forall i :: 0 <= i < |t| ==> r[i] == Refilled(t[i])
  {
    seq(|t|, i requires 0 <= i < |t| => Refilled(t[i]))
  }

  /** Some ready process has ticks left, or a priority that is positive as a signed
      word. */
  ghost predicate Eligible(t: seq<Slot>)
    requires Words(t)
  {
    exists i :: 0 <= i < |t| && t[i].flag == 0 && (t[i].ticks > 0 || S32(t[i].priority) > 0)
  }

  /** n rounds of a scan that finds nothing and a refill. */
  ghost function Rounds(t: seq<Slot>, n: nat): (r: seq<Slot>)
    requires Words(t)
    ensures Words(r)
  {
    if n == 0 then t else Refill(Rounds(t, n - 1))
  }

  lemma EligiblePicks(t: seq<Slot>)
    requires Words(t)
    ensures Eligible(t) <==> HasPick(t) || HasPick(Refill(t))
  {
    var r := Refill(t);
    if HasPick(t) {
      var i :| 0 <= i < |t| && Live(t[i]);
    }
    if HasPick(r) {
      var i :| 0 <= i < |t| && Live(r[i]);
    }
    if Eligible(t) {
      var i :| 0 <= i < |t| && t[i].flag == 0 && (t[i].ticks > 0 || S32(t[i].priority) > 0);
      assert Live(t[i]) || Live(r[i]);
    }
  }

  /** The scan ends, and then on the first or the second go, exactly when some process
      is eligible; otherwise it goes on for ever. */
  lemma ScansTwiceAtMost(t: seq<Slot>)
    requires Words(t)
    ensures Eligible(t) <==> HasPick(t) || HasPick(Refill(t))
    ensures Eligible(t) <==> exists n :: HasPick(Rounds(t, n))
  {
    hide Eligible, HasPick, Refill, Words;
    EligiblePicks(t);
    assert Rounds(t, 0) == t && Rounds(t, 1) == Refill(Rounds(t, 0));
    if HasPick(t) {
      assert HasPick(Rounds(t, 0));
    } else if HasPick(Refill(t)) {
      assert HasPick(Rounds(t, 1));
    }
    if n: nat :| HasPick(Rounds(t, n)) {
      RoundsSettle(t, n);
    }
  }

  /** Where process c gives up the CPU by schedule(2) and none is ready, it never ends. */
  lemma NeverEnds(t: seq<Slot>, c: nat)
    requires Words(t) && c < |t| && forall i :: 0 <= i < |t| && i != c ==> t[i].flag != 0
    ensures var f := Flagged(t, c, 2); !Eligible(f) && forall n :: !HasPick(Rounds(f, n))
  {
    ScansTwiceAtMost(Flagged(t, c, 2));
  }

  /** So it is when init calls NICE while the other process waits for a message. */
  lemma InitAlone()
    ensures var t := [Slot(2, 1, 1), Slot(1, 5, 5)];
            Words(t) && forall n :: !HasPick(Rounds(Flagged(t, 0, 2), n))
  {
    NeverEnds([Slot(2, 1, 1), Slot(1, 5, 5)], 0);
  }

  /** From the first refill on nothing changes any more. */
  lemma {:induction false} RoundsSettle(t: seq<Slot>, n: nat)
    requires Words(t)
    ensures Rounds(t, n) == if n == 0 then t else Refill(t)
  {
    if n > 1 {
      RoundsSettle(t, n - 1);
      assert Refill(Refill(t)) == Refill(t);
    } else if n == 1 {
      assert Rounds(t, 0) == t;
    }
  }

  // ------------------------------------------------------------------ schedule

  function Flagged(t: seq<Slot>, i: nat, flag: nat): seq<Slot>
    requires i < |t|
  {
    t[i := t[i].(flag := flag)]
  }

  /** schedule(flag) in table t with process c running leaves table u with d
      running. */
  ghost predicate Scheduled(t: seq<Slot>, c: nat, flag: nat, u: seq<Slot>, d: nat)
    requires Words(t) && c < |t|
  {
    var f := Flagged(t, c, flag);
    var r := if HasPick(f) then f else Refill(f);
    Picks(r, d) && u == Flagged(r, d, 2)
  }

  class Cpu {
    /** The process table in list order, from init on. */
    const procs: array<Slot>
    var current: nat

    ghost predicate Valid()
      reads this, procs
    {
      current < procs.Length && Words(procs[..])
    }

    constructor (table: seq<Slot>, running: nat)
      requires Words(table) && running < |table|
      ensures Valid() && procs[..] == table && current == running && fresh(procs)
    {
      procs := new Slot[|table|](i requires 0 <= i < |table| => table[i]);
      current := running;
    }

    /** One scan of the process table. */
    method Scan() returns (found: bool, ready: nat)
      requires Valid()
      ensures found <==> HasPick(procs[..])
      ensures found ==> Picks(procs[..], ready)
    {
      var greatest := 0;
      found, ready := false, 0;
      var ll := 0;
      while ll < procs.Length
        invariant ll <= procs.Length && (found <==> greatest > 0) && greatest >= 0
        invariant found ==> ready < ll && Live(procs[ready]) && procs[ready].ticks == greatest
        invariant forall j :: 0 <= j < ll && procs[j].flag == 0 ==>
                    procs[j].ticks <= greatest && (found && j < ready ==> procs[j].ticks < greatest)
      {
        if procs[ll].flag == 0 && procs[ll].ticks > greatest {
          greatest := procs[ll].ticks;
          found, ready := true, ll;
        }
        ll := ll + 1;
      }
      assert found ==> Live(procs[..][ready]);
    }

    /** Ticks for every ready process. */
    method RefillAll()
      requires Valid()
      modifies procs
      ensures Valid() && procs[..] == Refill(old(procs[..]))
    {
      ghost var t := procs[..];
      var ll := 0;
      while ll < procs.Length
        invariant ll <= procs.Length && current == old(current)
        invariant forall j :: 0 <= j < procs.Length ==> procs[j] == if j < ll then Refilled(t[j]) else t[j]
      {
        if procs[ll].flag == 0 {
          procs[ll] := procs[ll].(ticks := S32(procs[ll].priority));
        }
        ll := ll + 1;
      }
      assert procs[..] == Refill(t);
    }

    /** schedule. Where no process is eligible the scan would not end. */
    method Schedule(flag: nat)
      requires Valid() && Eligible(Flagged(procs[..], current, flag))
      modifies this`current, procs
      ensures Valid() && Scheduled(old(procs[..]), old(current), flag, procs[..], current)
    {
      procs[current] := procs[current].(flag := flag);
      ghost var f := procs[..];
      assert f == Flagged(old(procs[..]), current, flag);
      ScansTwiceAtMost(f);
      var found, ready := Scan();
      ghost var refilled := false;
      while !found
        invariant Valid() && procs[..] == (if refilled then Refill(f) else f) && (refilled ==> found && !HasPick(f))
        invariant (found <==> HasPick(procs[..])) && (found ==> Picks(procs[..], ready))
        decreases if found then 0 else 1
      {
        RefillAll();
        refilled := true;
        found, ready := Scan();
      }
      ghost var r := procs[..];
      current := ready;
      procs[current] := procs[current].(flag := 2);
      assert procs[..] == Flagged(r, ready, 2);
    }

    /** irq0_handler: charge the running process and choose again. */
    method Tick()
      requires Valid() && Eligible(Flagged(Charged(procs[..], current), current, 0))
      modifies this`current, procs
      ensures Valid() && TickTo(State(old(procs[..]), old(current)), State(procs[..], current))
    {
      procs[current] := procs[current].(ticks := S32(procs[current].ticks - 1));
      assert procs[..] == Charged(old(procs[..]), current);
      Schedule(0);
    }
  }

  // ------------------------------------------------------------------ fairness

  datatype State = State(table: seq<Slot>, current: nat)

  function Charged(t: seq<Slot>, c: nat): (r: seq<Slot>)
    requires Words(t) && c < |t|
    ensures Words(r) && |r| == |t|
  {
    t[c := t[c].(ticks := S32(t[c].ticks - 1))]
  }

  ghost predicate TickTo(s: State, u: State) {
    Words(s.table) && s.current < |s.table| && Scheduled(Charged(s.table, s.current), s.current, 0, u.table, u.current)
  }

  predicate Ready(x: Slot) { x.flag != 1 }

  /** One process runs, with ticks left; the ready ones have positive priorities. */
  ghost predicate Ok(s: State) {
    && Words(s.table) && s.current < |s.table| && s.table[s.current].ticks > 0
    && (forall i :: 0 <= i < |s.table| ==> (s.table[i].flag == 2 <==> i == s.current) && s.table[i].flag <= 2)
    && forall i :: 0 <= i < |s.table| && Ready(s.table[i]) ==>
         s.table[i].ticks >= 0 && 0 < s.table[i].priority < 0x8000_0000
  }

  /** The ticks the ready processes have left, and what they get at a refill. */
  function Left(t: seq<Slot>): int {
    if t == [] then 0 else Left(t[..|t| - 1]) + if Ready(t[|t| - 1]) then t[|t| - 1].ticks else 0
  }

  function Quota(t: seq<Slot>): nat {
    if t == [] then 0 else Quota(t[..|t| - 1]) + if Ready(t[|t| - 1]) then t[|t| - 1].priority else 0
  }

  /** Every ready process has just its priority in ticks. */
  ghost predicate Fresh(s: State) {
    && Ok(s)
    && (forall i :: 0 <= i < |s.table| && Ready(s.table[i]) ==> s.table[i].ticks == s.table[i].priority)
    && Picks(Flagged(s.table, s.current, 0), s.current)
  }

  /** The same processes, ready and asleep, with the same priorities; the sleepers
      have not changed at all. */
  ghost predicate SameReady(s: State, u: State) {
    && |u.table| == |s.table|
    && forall i :: 0 <= i < |s.table| ==>
         && u.table[i].priority == s.table[i].priority && (Ready(u.table[i]) <==> Ready(s.table[i]))
         && (!Ready(s.table[i]) ==> u.table[i] == s.table[i])
  }

  lemma {:induction false} LeftBound(t: seq<Slot>)
    requires forall i :: 0 <= i < |t| && Ready(t[i]) ==> t[i].ticks >= 0
    ensures Left(t) >= 0
    ensures Left(t) == 0 <==> forall i :: 0 <= i < |t| && Ready(t[i]) ==> t[i].ticks == 0
  {
    if t != [] {
      LeftBound(t[..|t| - 1]);
    }
  }

  /** Left of two tables that differ in one ready process. */
  lemma {:induction false} LeftChange(t: seq<Slot>, u: seq<Slot>, c: nat, d: int)
    requires |u| == |t| && forall i :: 0 <= i < |t| ==> (Ready(u[i]) <==> Ready(t[i]))
    requires forall i :: 0 <= i < |t| && Ready(t[i]) ==> u[i].ticks == t[i].ticks - if i == c then d else 0
    ensures Left(u) == Left(t) - if c < |t| && Ready(t[c]) then d else 0
  {
    if t != [] {
      LeftChange(t[..|t| - 1], u[..|t| - 1], c, d);
    }
  }

  lemma {:induction false} LeftIsQuota(t: seq<Slot>)
    requires forall i :: 0 <= i < |t| && Ready(t[i]) ==> t[i].ticks == t[i].priority
    ensures Left(t) == Quota(t)
  {
    if t != [] {
      LeftIsQuota(t[..|t| - 1]);
    }
  }

  /** The table that schedule(0) scans after a charge. */
  function Spent(s: State): (f: seq<Slot>)
    requires Words(s.table) && s.current < |s.table|
    ensures Words(f)
  {
    Flagged(Charged(s.table, s.current), s.current, 0)
  }

  /** It is without a running process, and one tick short. */
  lemma SpentFacts(s: State)
    requires Ok(s)
    ensures var f := Spent(s);
            && |f| == |s.table| && Left(f) == Left(s.table) - 1 && Left(f) >= 0
            && (Left(f) == 0 <==> !HasPick(f))
            && (forall i :: 0 <= i < |f| ==>
                  && f[i].flag == (if Ready(s.table[i]) then 0 else 1) && f[i].priority == s.table[i].priority
                  && f[i].ticks == s.table[i].ticks - if i == s.current then 1 else 0)
            && (forall i :: 0 <= i < |f| && Ready(f[i]) ==> f[i].ticks >= 0)
  {
    var f := Spent(s);
    LeftChange(s.table, f, s.current, 1);
    LeftBound(f);
    hide Words, Flagged, Charged, Left;
    if HasPick(f) {
      var i :| 0 <= i < |f| && Live(f[i]);
      assert Ready(f[i]);
    } else {
      forall i | 0 <= i < |f| && Ready(f[i])
        ensures f[i].ticks == 0
      {
        assert !Live(f[i]);
      }
    }
  }

  /** So with positive priorities a tick always ends. */
  lemma TickEnds(s: State)
    requires Ok(s)
    ensures Eligible(Spent(s))
  {
    SpentFacts(s);
    assert Spent(s)[s.current].flag == 0 && S32(Spent(s)[s.current].priority) > 0;
  }

  lemma NotLast(s: State, u: State)
    requires Ok(s) && TickTo(s, u) && Left(Spent(s)) > 0
    ensures Picks(Spent(s), u.current) && u.table == Flagged(Spent(s), u.current, 2) && Words(u.table)
  {
    SpentFacts(s);
  }

  /** A tick with ticks left elsewhere charges the running process and no other. */
  lemma TickCharges(s: State, u: State)
    requires Ok(s) && TickTo(s, u) && Left(s.table) > 1
    ensures Ok(u) && SameReady(s, u) && Left(u.table) == Left(s.table) - 1
    ensures forall i :: 0 <= i < |s.table| && Ready(s.table[i]) ==>
              u.table[i].ticks == s.table[i].ticks - if i == s.current then 1 else 0
  {
    hide Spent, Left, Charged, TickTo, Words, HasPick;
    SpentFacts(s);
    NotLast(s, u);
    LeftChange(s.table, u.table, s.current, 1);
  }

  /** The last tick of a round refills. */
  lemma TickRefills(s: State, u: State)
    requires Ok(s) && TickTo(s, u) && Left(s.table) == 1
    ensures Fresh(u) && SameReady(s, u) && s.table[s.current].ticks == 1
    ensures forall i :: 0 <= i < |s.table| && Ready(s.table[i]) && i != s.current ==> s.table[i].ticks == 0
  {
    SpentFacts(s);
    var f := Spent(s);
    LeftBound(f);
    assert Picks(Refill(f), u.current) && u.table == Flagged(Refill(f), u.current, 2);
    hide Spent, Left, Charged, TickTo, HasPick;
    assert Flagged(u.table, u.current, 0) == Refill(f);
    assert Ready(f[s.current]);
  }

  lemma FreshUnique(s: State, u: State)
    requires Fresh(s) && Fresh(u) && SameReady(s, u)
    ensures s == u
  {
    var a, b := Flagged(s.table, s.current, 0), Flagged(u.table, u.current, 0);
    assert a == b;
    PickUnique(a, s.current, u.current);
    assert s.table == u.table;
  }

  lemma TickDetermined(s: State, u: State, v: State)
    requires TickTo(s, u) && TickTo(s, v)
    ensures u == v
  {
    var f := Flagged(Charged(s.table, s.current), s.current, 0);
    PickUnique(if HasPick(f) then f else Refill(f), u.current, v.current);
  }

  ghost predicate StepAt(ss: seq<State>, k: nat)
    requires k + 1 < |ss|
  {
    TickTo(ss[k], ss[k + 1])
  }

  ghost predicate Run(ss: seq<State>) {
    |ss| > 0 && forall k :: 0 <= k < |ss| - 1 ==> StepAt(ss, k)
  }

  /** How often process p was charged by the ticks from i up to j. */
  function Charges(ss: seq<State>, p: nat, i: nat, j: nat): nat
    requires i <= j <= |ss|
  {
    if i == j then 0 else Charges(ss, p, i, j - 1) + if ss[j - 1].current == p then 1 else 0
  }

  /** Until the ticks run out, what a process has left and what it was charged add
      up. */
  lemma {:induction false} Draining(ss: seq<State>, i: nat, j: nat)
    requires Run(ss) && i <= j < |ss| && Ok(ss[i]) && j - i < Left(ss[i].table)
    ensures Ok(ss[j]) && SameReady(ss[i], ss[j]) && Left(ss[j].table) == Left(ss[i].table) - (j - i)
    ensures forall p :: 0 <= p < |ss[i].table| && Ready(ss[i].table[p]) ==>
              ss[j].table[p].ticks + Charges(ss, p, i, j) == ss[i].table[p].ticks
    decreases j
  {
    hide TickTo, Ok, Left;
    if i < j {
      Draining(ss, i, j - 1);
      assert StepAt(ss, j - 1);
      TickCharges(ss[j - 1], ss[j]);
    }
  }

  lemma LeftPositive(s: State)
    requires Ok(s)
    ensures Left(s.table) > 0
  {
    LeftBound(s.table);
    assert Ready(s.table[s.current]);
  }

  /** When they have run out, each process was charged all it had, and all are
      refilled. */
  lemma Round(ss: seq<State>, i: nat, j: nat)
    requires Run(ss) && i < |ss| && Ok(ss[i]) && j == i + Left(ss[i].table) < |ss|
    ensures i < j && Fresh(ss[j]) && SameReady(ss[i], ss[j])
    ensures forall p :: 0 <= p < |ss[i].table| && Ready(ss[i].table[p]) ==>
              Charges(ss, p, i, j) == ss[i].table[p].ticks
  {
    hide TickTo, Left, Fresh, Ok;
    LeftPositive(ss[i]);
    Draining(ss, i, j - 1);
    assert StepAt(ss, j - 1);
    TickRefills(ss[j - 1], ss[j]);
    forall p | 0 <= p < |ss[i].table| && Ready(ss[i].table[p])
      ensures Charges(ss, p, i, j) == ss[i].table[p].ticks
    {
      assert ss[j - 1].table[p].ticks + Charges(ss, p, i, j - 1) == ss[i].table[p].ticks;
      assert Ready(ss[j - 1].table[p]);
    }
  }

  /** Between two refills, which come Quota ticks apart, every ready process is charged
      exactly its priority; the second refill finds the first one's state again. */
  lemma FairRound(ss: seq<State>, i: nat)
    requires Run(ss) && i < |ss| && Fresh(ss[i]) && i + Quota(ss[i].table) < |ss|
    ensures Quota(ss[i].table) > 0 && ss[i + Quota(ss[i].table)] == ss[i]
    ensures forall p :: 0 <= p < |ss[i].table| && Ready(ss[i].table[p]) ==>
              Charges(ss, p, i, i + Quota(ss[i].table)) == ss[i].table[p].priority
  {
    LeftIsQuota(ss[i].table);
    hide TickTo, Left, Quota;
    Round(ss, i, i + Quota(ss[i].table));
    FreshUnique(ss[i], ss[i + Quota(ss[i].table)]);
  }

  /** From a refill on the schedule repeats itself. */
  lemma {:induction false} Periodic(ss: seq<State>, i: nat, k: nat)
    requires Run(ss) && i <= k < |ss| && Fresh(ss[i]) && k + Quota(ss[i].table) < |ss|
    ensures ss[k + Quota(ss[i].table)] == ss[k]
    decreases k
  {
    hide TickTo, Fresh, Quota;
    var n := Quota(ss[i].table);
    if k == i {
      FairRound(ss, i);
    } else {
      Periodic(ss, i, k - 1);
      assert StepAt(ss, k - 1) && StepAt(ss, k - 1 + n);
      TickDetermined(ss[k - 1], ss[k], ss[k + n]);
    }
  }

  lemma {:induction false} ChargesDrop(ss: seq<State>, p: nat, i: nat, j: nat)
    requires i < j <= |ss|
    ensures Charges(ss, p, i, j) == Charges(ss, p, i + 1, j) + if ss[i].current == p then 1 else 0
    decreases j
  {
    if i + 1 < j {
      ChargesDrop(ss, p, i, j - 1);
    }
  }

  /** Once there has been a refill, any Quota ticks in a row, not only those between
      refills, charge every ready process exactly its priority. */
  lemma {:induction false} FairWindow(ss: seq<State>, i: nat, k: nat, p: nat)
    requires Run(ss) && i <= k < |ss| && Fresh(ss[i]) && k + Quota(ss[i].table) < |ss|
    requires p < |ss[i].table| && Ready(ss[i].table[p])
    ensures Charges(ss, p, k, k + Quota(ss[i].table)) == ss[i].table[p].priority
    decreases k
  {
    hide TickTo, Fresh, Quota;
    var n := Quota(ss[i].table);
    FairRound(ss, i);
    if i < k {
      FairWindow(ss, i, k - 1, p);
      Periodic(ss, i, k - 1);
      ChargesDrop(ss, p, k - 1, k - 1 + n);
      assert Charges(ss, p, k, k + n) == Charges(ss, p, k, k + n - 1) + if ss[k - 1 + n].current == p then 1 else 0;
    }
  }

  lemma {:induction false} ChargedAt(ss: seq<State>, p: nat, i: nat, j: nat)
    requires i <= j <= |ss| && Charges(ss, p, i, j) > 0
    ensures exists m :: i <= m < j && ss[m].current == p
    decreases j
  {
    if ss[j - 1].current != p {
      ChargedAt(ss, p, i, j - 1);
    }
  }

  /** Once there has been a refill, no ready process waits longer than the sum of the
      priorities. */
  lemma RunsSoon(ss: seq<State>, i: nat, k: nat, p: nat)
    requires Run(ss) && i <= k < |ss| && Fresh(ss[i]) && k + Quota(ss[i].table) < |ss|
    requires p < |ss[i].table| && Ready(ss[i].table[p])
    ensures exists m :: k <= m < k + Quota(ss[i].table) && ss[m].current == p
  {
    hide TickTo, Fresh, Quota;
    FreshPriority(ss[i], p);
    FairWindow(ss, i, k, p);
    ChargedAt(ss, p, k, k + Quota(ss[i].table));
  }

  lemma FreshPriority(s: State, p: nat)
    requires Fresh(s) && p < |s.table| && Ready(s.table[p])
    ensures s.table[p].priority > 0
  {
  }

  lemma {:induction false} QuotaSame(t: seq<Slot>, u: seq<Slot>)
    requires |u| == |t| && forall i :: 0 <= i < |t| ==> u[i].priority == t[i].priority && (Ready(u[i]) <==> Ready(t[i]))
    ensures Quota(u) == Quota(t)
  {
    if t != [] { QuotaSame(t[..|t| - 1], u[..|t| - 1]); }
  }

  /** Whatever state the run is in: after as many ticks as the ready processes have left,
      every window of Quota ticks is fair. */
  lemma FairLater(ss: seq<State>, k: nat, w: nat, p: nat)
    requires Run(ss) && k < |ss| && Ok(ss[k]) && k + Left(ss[k].table) <= w && w + Quota(ss[k].table) < |ss|
    requires p < |ss[k].table| && Ready(ss[k].table[p])
    ensures Charges(ss, p, w, w + Quota(ss[k].table)) == ss[k].table[p].priority
  {
    hide TickTo, Fresh, Quota, Left, Ok;
    LeftPositive(ss[k]);
    var i := k + Left(ss[k].table);
    Round(ss, k, i);
    QuotaSame(ss[k].table, ss[i].table);
    FairWindow(ss, i, w, p);
  }

  /** So from any state no ready process waits longer than what the ready processes have
      left and the sum of the priorities together. */
  lemma RunsWithin(ss: seq<State>, k: nat, p: nat)
    requires Run(ss) && k < |ss| && Ok(ss[k]) && k + Left(ss[k].table) + Quota(ss[k].table) < |ss|
    requires p < |ss[k].table| && Ready(ss[k].table[p])
    ensures exists m :: k <= m < k + Left(ss[k].table) + Quota(ss[k].table) && ss[m].current == p
  {
    hide TickTo, Fresh, Quota, Left;
    LeftPositive(ss[k]);
    var w := k + Left(ss[k].table);
    FairLater(ss, k, w, p);
    ChargedAt(ss, p, w, w + Quota(ss[k].table));
  }

  /** The sum of the priorities alone is not enough where no refill came before: with a
      process just woken that has no ticks left, priority 1, and one running on 5 of 5
      ticks, the sum is 6, and the first one waits for nine ticks. */
  lemma WaitsLonger() returns (ss: seq<State>)
    ensures Run(ss) && |ss| == 10 && Ok(ss[0]) && Quota(ss[0].table) == 6 && Ready(ss[0].table[0])
    ensures forall m :: 0 <= m < 9 ==> ss[m].current != 0
  {
    hide TickTo, Ok, Quota;
    ss := [Pair(0, 5), Pair(0, 4), Pair(0, 3), Pair(0, 2), Pair(0, 1),
           Pair(1, 5), Pair(1, 4), Pair(1, 3), Pair(1, 2), State([Slot(2, 1, 1), Slot(0, 1, 5)], 0)];
    forall k | 0 <= k < 9
      ensures StepAt(ss, k)
    {
      if k < 4 { PairTick(0, 5 - k); } else if k == 4 { PairRefill(); } else if k < 8 { PairTick(1, 10 - k); } else { PairTurn(); }
    }
    PairOk();
  }

  function Pair(x: int, y: int): State { State([Slot(0, x, 1), Slot(2, y, 5)], 1) }

  lemma PairOk()
    ensures Ok(Pair(0, 5)) && Quota(Pair(0, 5).table) == 6
  {
    var t := Pair(0, 5).table;
    assert t[..1] == [t[0]] && t[..1][..0] == [];
    assert Quota([]) == 0 && Quota([t[0]]) == 1;
  }

  lemma PairTick(x: int, y: int)
    requires 0 <= x < y - 1 < 0x1_0000
    ensures TickTo(Pair(x, y), Pair(x, y - 1))
  {
    var f := Flagged(Charged(Pair(x, y).table, 1), 1, 0);
    assert f == [Slot(0, x, 1), Slot(0, y - 1, 5)] && Live(f[1]);
  }

  lemma PairRefill()
    ensures TickTo(Pair(0, 1), Pair(1, 5))
  {
    var f := Flagged(Charged(Pair(0, 1).table, 1), 1, 0);
    assert f == [Slot(0, 0, 1), Slot(0, 0, 5)] && Refill(f) == [Slot(0, 1, 1), Slot(0, 5, 5)];
  }

  lemma PairTurn()
    ensures TickTo(Pair(1, 2), State([Slot(2, 1, 1), Slot(0, 1, 5)], 0))
  {
    var f := Flagged(Charged(Pair(1, 2).table, 1), 1, 0);
    assert f == [Slot(0, 1, 1), Slot(0, 1, 5)] && Live(f[0]);
  }
}
