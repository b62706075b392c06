/** The life of a process over whole runs of module Scheduler: which step takes
    it from which state to which, what wakes a sleeper, what exit() leaves
    behind, and when a process runs again. */
module Lifecycle {
  import opened Scheduler
  import opened Fairness

  // ---------------------------------------------------------------- one step

  /** The step takes the CPU from a process that could go on: yield(), or the last tick of its quantum. */
  ghost predicate Preempts(s: Sys, l: Label) {
    l == LYield || (l == LCharge && 0 <= s.cur < |s.proc| && s.proc[s.cur].ticksLeft == 1)
  }

  /** The running process has a child that exited. */
  ghost predicate HasZombie(s: Sys) { exists k :: 0 <= k < |s.proc| && s.proc[k].parent == s.cur && s.proc[k].state == ZOMBIE }

  /** The step wakes slot i if it sleeps on channel c. */
  ghost predicate Rouses(s: Sys, l: Label, i: int, c: Chan) {
    || l == LWakeup(c)
    || (l == LClock && c == TicksChan)
    || l == LKill(i)
    || (l == LExit && 0 <= s.cur < |s.proc| && (c == ProcChan(s.proc[s.cur].parent) || (c == ProcChan(s.init) && HasZombie(s))))
  }

  lemma {:induction false} RunningIsCur(P: Params, s: Sys, i: int)
    requires SysInv(P, s) && 0 <= i < |s.proc|
    ensures s.proc[i].state == RUNNING <==> i == s.cur
    ensures i == s.cur ==> s.proc[i].ticksLeft > 0
    ensures -1 <= s.cur < |s.proc|
  {
    assert ProcOk(P, s.proc[i], s.ticks, i == s.cur);
  }

  /** p's state after the step, by the life cycle: every change of state has one step that makes it. */
  ghost predicate Moves(s: Sys, l: Label, cur': int, i: int, p: Proc, p': Proc) {
    match p.state
    case UNUSED => p'.state == if l == LAlloc(i) then EMBRYO else UNUSED
    case EMBRYO => p'.state == if l == LAbort(i) then UNUSED else if l.LPublish? && l.slot == i then RUNNABLE else EMBRYO
    case RUNNABLE => p'.state == if l == LSchedule && cur' == i then RUNNING else RUNNABLE
    case RUNNING => p'.state == if Preempts(s, l) then RUNNABLE else if l.LSleep? then SLEEPING else if l == LExit then ZOMBIE else RUNNING
    case SLEEPING => p'.state == if Rouses(s, l, i, p.chan) then RUNNABLE else SLEEPING
    case ZOMBIE => p'.state == if l == LReap(i) then UNUSED else ZOMBIE
  }

  lemma {:induction false} ExitMoves(P: Params, s: Sys, i: int)
    requires Enabled(P, s, LExit) && 0 <= i < |s.proc| && (s.proc[i].state == RUNNING <==> i == s.cur)
    ensures Moves(s, LExit, -1, i, s.proc[i], Apply(P, s, LExit).proc[i])
  {
  }

  lemma {:induction false} OtherMoves(P: Params, s: Sys, l: Label, i: int)
    requires Enabled(P, s, l) && 0 <= i < |s.proc| && l != LExit && l != LSchedule
    requires (s.proc[i].state == RUNNING <==> i == s.cur) && (i == s.cur ==> s.proc[i].ticksLeft > 0)
    ensures |Apply(P, s, l).proc| == |s.proc| && Moves(s, l, Apply(P, s, l).cur, i, s.proc[i], Apply(P, s, l).proc[i])
  {
  }

  /** Every step moves every process as the life cycle says. */
  lemma {:induction false} StateChanges(P: Params, s: Sys, l: Label, i: int)
    requires SysInv(P, s) && Enabled(P, s, l) && 0 <= i < |s.proc|
    ensures |Apply(P, s, l).proc| == |s.proc|
    ensures Moves(s, l, Apply(P, s, l).cur, i, s.proc[i], Apply(P, s, l).proc[i])
  {
    RunningIsCur(P, s, i);
    if l == LSchedule {
      ScheduleChanges(P, s);
    } else if l == LExit {
      ExitMoves(P, s, i);
    } else {
      hide PidsOk, QueueOk, ProcsOk, Moves, Apply, Enabled;
      OtherMoves(P, s, l, i);
    }
  }

  /** Who a process is: what changes of that, and by which step. */
  ghost predicate Names(s: Sys, l: Label, i: int, p: Proc, p': Proc) {
    && p'.pid == (if l == LAlloc(i) then s.nextpid else if l == LReap(i) then 0 else p.pid)
    && p'.parent == (if l.LPublish? && l.slot == i then l.parent else if l == LReap(i) then -1
                     else if l == LExit && p.parent == s.cur then s.init else p.parent)
    && p'.chan == (if l.LSleep? && i == s.cur then l.chan else p.chan)
    && p'.killed == (if l == LKill(i) then true else if l == LReap(i) then false else p.killed)
    && p'.niceness == (if l.LDate? && l.slot == i then l.nice else p.niceness)
  }

  /** Its time: the ticks left of the quantum and the deadline. */
  ghost predicate Times(P: Params, s: Sys, l: Label, cur': int, i: int, p: Proc, p': Proc) {
    && p'.ticksLeft == (if l == LCharge && i == s.cur then p.ticksLeft - 1
                        else if l == LSchedule && i == cur' && p.ticksLeft == 0 then P.quantum else p.ticksLeft)
    && p'.vdeadline == (if l.LDate? && l.slot == i then s.ticks + P.offset(l.nice)
                        else if Expires(s, l, i) then s.ticks + P.offset(p.niceness) else p.vdeadline)
  }

  lemma {:induction false} OtherNames(P: Params, s: Sys, l: Label, i: int)
    requires Enabled(P, s, l) && 0 <= i < |s.proc| && l != LSchedule
    ensures |Apply(P, s, l).proc| == |s.proc| && Names(s, l, i, s.proc[i], Apply(P, s, l).proc[i])
  {
  }

  lemma {:induction false} OtherTimes(P: Params, s: Sys, l: Label, i: int)
    requires Enabled(P, s, l) && 0 <= i < |s.proc| && l != LSchedule && (i == s.cur ==> s.proc[i].ticksLeft > 0)
    ensures |Apply(P, s, l).proc| == |s.proc| && Times(P, s, l, Apply(P, s, l).cur, i, s.proc[i], Apply(P, s, l).proc[i])
  {
  }

  /** Every other field of every process changes by these steps and by no other. */
  lemma {:induction false} FieldChanges(P: Params, s: Sys, l: Label, i: int)
    requires SysInv(P, s) && Enabled(P, s, l) && 0 <= i < |s.proc|
    ensures |Apply(P, s, l).proc| == |s.proc|
    ensures Names(s, l, i, s.proc[i], Apply(P, s, l).proc[i])
    ensures Times(P, s, l, Apply(P, s, l).cur, i, s.proc[i], Apply(P, s, l).proc[i])
  {
    RunningIsCur(P, s, i);
    assert 0 <= s.proc[i].ticksLeft by { assert ProcOk(P, s.proc[i], s.ticks, i == s.cur); }
    if l == LSchedule {
      ScheduleChanges(P, s);
    } else {
      hide PidsOk, QueueOk, ProcsOk, Names, Times, Apply, Enabled;
      OtherNames(P, s, l, i);
      OtherTimes(P, s, l, i);
    }
  }

  /** The CPU, the clock and the pid counter. */
  lemma {:induction false} SystemChanges(P: Params, s: Sys, l: Label)
    requires SysInv(P, s) && Enabled(P, s, l)
    ensures var s' := Apply(P, s, l);
            && s'.ticks == s.ticks + (if l == LClock then 1 else 0)
            && s'.nextpid == s.nextpid + (if l.LAlloc? then 1 else 0) && s'.init == s.init
            && (l != LSchedule ==> s'.cur == if Preempts(s, l) || l.LSleep? || l == LExit then -1 else s.cur)
            && (l == LSchedule ==> if exists j :: Runnable(s.proc, j) then Earliest(s.proc, s'.cur) else s'.cur == -1)
  {
    if l == LSchedule {
      if exists j :: Runnable(s.proc, j) { ScheduleDispatches(P, s); } else { ScheduleIdles(P, s); }
    } else {
      assert s.cur != -1 ==> ProcOk(P, s.proc[s.cur], s.ticks, true);
      hide PidsOk, QueueOk, ProcsOk;
    }
  }

  // ---------------------------------------------------------------- runs

  /** The life cycle on every run. */
  lemma {:induction false} EveryChange(P: Params, ss: seq<Sys>, ls: seq<Label>, k: nat, i: int)
    requires IsRun(P, ss, ls) && SysInv(P, ss[0]) && k < |ls| && 0 <= i < P.nproc
    ensures |ss[k].proc| == |ss[k + 1].proc| == P.nproc
    ensures var s, p, p' := ss[k], ss[k].proc[i], ss[k + 1].proc[i];
            Moves(s, ls[k], ss[k + 1].cur, i, p, p') && Names(s, ls[k], i, p, p') && Times(P, s, ls[k], ss[k + 1].cur, i, p, p')
  {
    hide Moves, Names, Times, Enabled, Apply;
    RunInv(P, ss, ls, k);
    StateChanges(P, ss[k], ls[k], i);
    FieldChanges(P, ss[k], ls[k], i);
  }

  /** A process that yields or uses up its quantum is RUNNABLE and otherwise who it was; the CPU is free. */
  lemma {:induction false} Preempted(P: Params, ss: seq<Sys>, ls: seq<Label>, k: nat)
    requires IsRun(P, ss, ls) && SysInv(P, ss[0]) && k < |ls| && Preempts(ss[k], ls[k])
    ensures var i := ss[k].cur;
            && 0 <= i < |ss[k].proc| == |ss[k + 1].proc| && ss[k].proc[i].state == RUNNING && ss[k + 1].cur == -1
            && Runnable(ss[k + 1].proc, i)
            && ss[k + 1].proc[i].pid == ss[k].proc[i].pid && ss[k + 1].proc[i].parent == ss[k].proc[i].parent
            && ss[k + 1].proc[i].chan == ss[k].proc[i].chan && ss[k + 1].proc[i].killed == ss[k].proc[i].killed
            && ss[k + 1].proc[i].niceness == ss[k].proc[i].niceness
  {
    RunInv(P, ss, ls, k);
    var i := ss[k].cur;
    assert 0 <= i < |ss[k].proc|;
    RunningIsCur(P, ss[k], i);
    hide Enabled, Apply, SysInv;
    EveryChange(P, ss, ls, k, i);
    SystemChanges(P, ss[k], ls[k]);
  }

  /** The running process leaves the CPU in three ways only, and its state says which. */
  lemma {:induction false} LeavesCpu(P: Params, ss: seq<Sys>, ls: seq<Label>, k: nat)
    requires IsRun(P, ss, ls) && SysInv(P, ss[0]) && k < |ls| && ss[k].cur != -1
    ensures var i, l := ss[k].cur, ls[k];
            && 0 <= i < |ss[k].proc| == |ss[k + 1].proc| && ss[k].proc[i].state == RUNNING
            && (ss[k + 1].cur == i || ss[k + 1].cur == -1) && (ss[k + 1].proc[i].state == RUNNING <==> ss[k + 1].cur == i)
            && (ss[k + 1].proc[i].state == RUNNABLE <==> Preempts(ss[k], l))
            && (ss[k + 1].proc[i].state == SLEEPING <==> l.LSleep?)
            && (ss[k + 1].proc[i].state == ZOMBIE <==> l == LExit)
            && ss[k + 1].proc[i].state in {RUNNING, RUNNABLE, SLEEPING, ZOMBIE}
  {
    RunInv(P, ss, ls, k);
    var i := ss[k].cur;
    RunningIsCur(P, ss[k], 0);
    RunningIsCur(P, ss[k], i);
    assert ls[k] != LSchedule by { assert Enabled(P, ss[k], ls[k]); }
    hide Enabled, Apply, SysInv;
    EveryChange(P, ss, ls, k, i);
    SystemChanges(P, ss[k], ls[k]);
  }

  ghost predicate SleepsOn(s: Sys, i: int, c: Chan, pid: int) {
    0 <= i < |s.proc| && s.proc[i].state == SLEEPING && s.proc[i].chan == c && s.proc[i].pid == pid
  }

  lemma {:induction false} FallsAsleep(P: Params, ss: seq<Sys>, ls: seq<Label>, k: nat, c: Chan)
    requires IsRun(P, ss, ls) && SysInv(P, ss[0]) && k < |ls| && ls[k] == LSleep(c)
    ensures 0 <= ss[k].cur < |ss[k].proc| && SleepsOn(ss[k + 1], ss[k].cur, c, ss[k].proc[ss[k].cur].pid)
  {
    RunInv(P, ss, ls, k);
    assert Enabled(P, ss[k], ls[k]);
    RunningIsCur(P, ss[k], ss[k].cur);
    assert |ss[k].proc| == P.nproc;
    hide Enabled, Apply, SysInv;
    EveryChange(P, ss, ls, k, ss[k].cur);
  }

  lemma {:induction false} NewSlots(P: Params, s: Sys, l: Label, i: int)
    requires Enabled(P, s, l) && 0 <= i < |s.proc|
    ensures (l == LAlloc(i) ==> s.proc[i].state == UNUSED) && (l == LReap(i) ==> s.proc[i].state == ZOMBIE)
  {
  }

  lemma {:induction false} SleepStep(P: Params, ss: seq<Sys>, ls: seq<Label>, k: nat, i: int, c: Chan, pid: int)
    requires IsRun(P, ss, ls) && SysInv(P, ss[0]) && k < |ls| && SleepsOn(ss[k], i, c, pid)
    ensures if Rouses(ss[k], ls[k], i, c) then Runnable(ss[k + 1].proc, i) && ss[k + 1].proc[i].pid == pid && ss[k + 1].proc[i].chan == c
            else SleepsOn(ss[k + 1], i, c, pid)
  {
    RunInv(P, ss, ls, k);
    RunningIsCur(P, ss[k], i);
    NewSlots(P, ss[k], ls[k], i);
    assert |ss[k].proc| == P.nproc;
    hide Enabled, Apply, SysInv, Rouses;
    EveryChange(P, ss, ls, k, i);
  }

  /** A process that goes to sleep on c sleeps on c until the first step that wakes it, and that step makes it RUNNABLE; nothing
      else does. */
  lemma {:induction false} SleepsUntilWoken(P: Params, ss: seq<Sys>, ls: seq<Label>, k: nat, c: Chan, n: nat)
    requires IsRun(P, ss, ls) && SysInv(P, ss[0]) && k < n <= |ls| && ls[k] == LSleep(c)
    requires forall m :: k < m < n ==> !Rouses(ss[m], ls[m], ss[k].cur, c)
    ensures 0 <= ss[k].cur < |ss[k].proc| && SleepsOn(ss[n], ss[k].cur, c, ss[k].proc[ss[k].cur].pid)
    ensures n < |ls| && Rouses(ss[n], ls[n], ss[k].cur, c) ==> Runnable(ss[n + 1].proc, ss[k].cur)
  {
    hide Enabled, Apply, SysInv, Rouses, SleepsOn;
    FallsAsleep(P, ss, ls, k, c);
    var i, pid := ss[k].cur, ss[k].proc[ss[k].cur].pid;
    if n > k + 1 {
      SleepsUntilWoken(P, ss, ls, k, c, n - 1);
      SleepStep(P, ss, ls, n - 1, i, c, pid);
    }
    if n < |ls| { SleepStep(P, ss, ls, n, i, c, pid); }
  }

  /** After exit() the process is a ZOMBIE with its pid, no slot has it as parent, its children are init's, and whoever waits
      for it to exit is RUNNABLE: its parent, and init if it was handed a child that had exited. */
  lemma {:induction false} ExitLeaves(P: Params, ss: seq<Sys>, ls: seq<Label>, k: nat, j: int)
    requires IsRun(P, ss, ls) && SysInv(P, ss[0]) && k < |ls| && ls[k] == LExit && 0 <= j < P.nproc
    ensures |ss[k].proc| == |ss[k + 1].proc| == P.nproc
    ensures var c, p, p' := ss[k].cur, ss[k].proc[j], ss[k + 1].proc[j];
            && p'.parent != c && (if p.parent == c then p'.parent == ss[k].init else p'.parent == p.parent)
            && (j == c ==> p'.state == ZOMBIE && p'.pid == p.pid)
            && (0 <= c < |ss[k].proc| && p.state == SLEEPING && p.chan == ProcChan(ss[k].proc[c].parent) ==> p'.state == RUNNABLE)
            && (p.state == SLEEPING && p.chan == ProcChan(ss[k].init) && HasZombie(ss[k]) ==> p'.state == RUNNABLE)
  {
    RunInv(P, ss, ls, k);
    RunningIsCur(P, ss[k], j);
    assert 0 <= ss[k].cur < |ss[k].proc| && ss[k].cur != ss[k].init by { assert Enabled(P, ss[k], ls[k]); }
    hide Enabled, Apply, SysInv, HasZombie;
    EveryChange(P, ss, ls, k, j);
  }

  // ---------------------------------------------------------------- running again

  lemma {:induction false} RunSuffix(P: Params, ss: seq<Sys>, ls: seq<Label>, n: nat)
    requires IsRun(P, ss, ls) && SysInv(P, ss[0]) && n <= |ls|
    ensures IsRun(P, ss[n..], ls[n..]) && SysInv(P, ss[n])
  {
    hide Enabled, Apply, SysInv;
    RunInv(P, ss, ls, n);
    var tt, ms := ss[n..], ls[n..];
    forall k | 0 <= k < |ms| ensures Enabled(P, tt[k], ms[k]) && tt[k + 1] == Apply(P, tt[k], ms[k]) {
      assert tt[k] == ss[n + k] && ms[k] == ls[n + k] && tt[k + 1] == ss[n + k + 1];
    }
  }

  /** A process that is RUNNABLE after k steps and not dispatched since: once the clock has moved by more than the spread of the
      offsets, at step n, at most nproc - 1 quanta are charged to others from there on. */
  lemma {:induction false} RunsAgain(P: Params, ss: seq<Sys>, ls: seq<Label>, k: nat, n: nat, i: int)
    requires IsRun(P, ss, ls) && SysInv(P, ss[0]) && k <= n <= |ls| && Runnable(ss[k].proc, i)
    requires ss[n].ticks > ss[k].ticks + P.MaxOffset() - P.MinOffset()
    requires forall m :: k <= m < |ls| && ls[m] == LSchedule ==> ss[m + 1].cur != i
    ensures Charged(ls[n..], |ls| - n) <= (P.nproc - 1) * P.quantum
  {
    hide Enabled, Apply, SysInv, Waiting;
    RunSuffix(P, ss, ls, k);
    var tt, ms := ss[k..], ls[k..];
    WaitingComes(P, tt, ms, i, n - k);
    assert tt[n - k] == ss[n];
    RunSuffix(P, ss, ls, n);
    BoundedWaiting(P, ss[n..], ls[n..], i, ss[k].proc[i].vdeadline);
  }

  /** So a preempted process is dispatched again within that bound. */
  lemma {:induction false} PreemptedRunsAgain(P: Params, ss: seq<Sys>, ls: seq<Label>, k: nat, n: nat)
    requires IsRun(P, ss, ls) && SysInv(P, ss[0]) && k < n <= |ls| && Preempts(ss[k], ls[k])
    requires ss[n].ticks > ss[k + 1].ticks + P.MaxOffset() - P.MinOffset()
    requires forall m :: k < m < |ls| && ls[m] == LSchedule ==> ss[m + 1].cur != ss[k].cur
    ensures Charged(ls[n..], |ls| - n) <= (P.nproc - 1) * P.quantum
  {
    hide Enabled, Apply, SysInv, Preempts;
    Preempted(P, ss, ls, k);
    RunsAgain(P, ss, ls, k + 1, n, ss[k].cur);
  }

  /** And so is a sleeper after the first step, number m, that wakes it. */
  lemma {:induction false} WokenRunsAgain(P: Params, ss: seq<Sys>, ls: seq<Label>, k: nat, c: Chan, m: nat, n: nat)
    requires IsRun(P, ss, ls) && SysInv(P, ss[0]) && k < m < n <= |ls| && ls[k] == LSleep(c) && Rouses(ss[m], ls[m], ss[k].cur, c)
    requires forall j :: k < j < m ==> !Rouses(ss[j], ls[j], ss[k].cur, c)
    requires ss[n].ticks > ss[m + 1].ticks + P.MaxOffset() - P.MinOffset()
    requires forall j :: m < j < |ls| && ls[j] == LSchedule ==> ss[j + 1].cur != ss[k].cur
    ensures Charged(ls[n..], |ls| - n) <= (P.nproc - 1) * P.quantum
  {
    hide Enabled, Apply, SysInv, Rouses, SleepsOn;
    SleepsUntilWoken(P, ss, ls, k, c, m);
    RunsAgain(P, ss, ls, m + 1, n, ss[k].cur);
  }

  // ---------------------------------------------------------------- families

  predicate Live(st: ProcState) { st == SLEEPING || st == RUNNABLE || st == RUNNING }

  /** Slot q is init's or has a live process. */
  ghost predicate Raised(s: Sys, q: int) { q == s.init || (0 <= q < |s.proc| && Live(s.proc[q].state)) }

  /** Parents are there to wait for their children: a parent is a live process, or init. */
  ghost predicate FamilyOk(s: Sys) {
    forall i :: 0 <= i < |s.proc| && s.proc[i].parent != -1 ==> Raised(s, s.proc[i].parent)
  }

  /** A new process has the running one as parent, or none. */
  ghost predicate Forks(s: Sys, l: Label) { l.LPublish? ==> l.parent == -1 || l.parent == s.cur }

  /** A live process stays live, unless it exits. */
  lemma {:induction false} RaisedStep(P: Params, s: Sys, l: Label, q: int)
    requires SysInv(P, s) && Enabled(P, s, l) && Raised(s, q) && (l == LExit ==> q != s.cur)
    ensures Raised(Apply(P, s, l), q)
  {
    SystemChanges(P, s, l);
    if 0 <= q < |s.proc| {
      RunningIsCur(P, s, q);
      hide Apply, Enabled, SysInv;
      StateChanges(P, s, l, q);
    }
  }

  lemma {:induction false} RunningRaised(P: Params, s: Sys, l: Label)
    requires SysInv(P, s) && Enabled(P, s, l) && l.LPublish?
    ensures s.cur == -1 || Raised(s, s.cur)
  {
    if s.cur != -1 { RunningIsCur(P, s, s.cur); }
  }

  lemma {:induction false} FamilyStep(P: Params, s: Sys, l: Label)
    requires SysInv(P, s) && Enabled(P, s, l) && FamilyOk(s) && Forks(s, l)
    ensures FamilyOk(Apply(P, s, l))
  {
    var s' := Apply(P, s, l);
    assert l == LExit ==> s.cur != s.init;
    if l.LPublish? { RunningRaised(P, s, l); }
    assert |s'.proc| == |s.proc| == P.nproc > 0 by { FieldChanges(P, s, l, 0); }
    hide Apply, Enabled, SysInv, Raised;
    forall i | 0 <= i < |s'.proc| && s'.proc[i].parent != -1 ensures Raised(s', s'.proc[i].parent) {
      FieldChanges(P, s, l, i);
      hide Times;
      RaisedStep(P, s, l, s'.proc[i].parent) by {
        if l == LExit { assert Raised(s, s.init) by { InitRaised(s); } }
      }
    }
  }

  lemma {:induction false} InitRaised(s: Sys)
    ensures Raised(s, s.init)
  {
  }

  /** On every run from boot in which processes are created by fork, every process that has a parent has a live one, or init;
      in particular a ZOMBIE has somebody to collect it. */
  lemma {:induction false} NoOrphans(P: Params, ss: seq<Sys>, ls: seq<Label>, k: nat)
    requires P.Ok() && IsRun(P, ss, ls) && ss[0] == Boot(P) && k < |ss|
    requires forall m :: 0 <= m < |ls| ==> Forks(ss[m], ls[m])
    ensures FamilyOk(ss[k])
  {
    BootInv(P);
    if k > 0 {
      NoOrphans(P, ss, ls, k - 1);
      RunInv(P, ss, ls, k - 1);
      hide Apply, Enabled, SysInv, FamilyOk, Forks;
      FamilyStep(P, ss[k - 1], ls[k - 1]);
    }
  }

  // ---------------------------------------------------------------- wait()

  /** Slot q sleeps in wait() beside slot j, a child of it that has exited. */
  ghost predicate Missed(s: Sys, q: int, j: int) {
    && 0 <= q < |s.proc| && s.proc[q].state == SLEEPING && s.proc[q].chan == ProcChan(q)
    && 0 <= j < |s.proc| && s.proc[j].state == ZOMBIE && s.proc[j].parent == q
  }

  /** wait() goes to sleep only if its scan, under the same lock, found no child that has exited. */
  ghost predicate Looks(s: Sys, l: Label) { l == LSleep(ProcChan(s.cur)) ==> !HasZombie(s) }

  /** Nobody but init can be its own parent. */
  ghost predicate NoSelf(s: Sys) { forall i :: 0 <= i < |s.proc| && i != s.init ==> s.proc[i].parent != i }

  lemma {:induction false} NoSelfStep(P: Params, s: Sys, l: Label)
    requires SysInv(P, s) && Enabled(P, s, l) && Forks(s, l) && NoSelf(s)
    ensures NoSelf(Apply(P, s, l))
  {
    var s' := Apply(P, s, l);
    assert |s.proc| == P.nproc > 0;
    assert |s'.proc| == |s.proc| by { FieldChanges(P, s, l, 0); }
    SystemChanges(P, s, l);
    forall i | 0 <= i < |s.proc| && i != s.init ensures s'.proc[i].parent != i {
      RunningIsCur(P, s, i);
      PublishesEmbryo(P, s, l, i);
      hide Apply, Enabled, SysInv;
      FieldChanges(P, s, l, i);
      hide Times;
    }
  }

  lemma {:induction false} MissedStep(P: Params, s: Sys, l: Label, q: int, j: int)
    requires SysInv(P, s) && Enabled(P, s, l) && Looks(s, l) && NoSelf(s) && !Missed(s, q, j)
    ensures !Missed(Apply(P, s, l), q, j)
  {
    var s' := Apply(P, s, l);
    assert |s.proc| == P.nproc > 0;
    assert |s'.proc| == |s.proc| by { FieldChanges(P, s, l, 0); }
    if 0 <= q < |s.proc| && 0 <= j < |s.proc| {
      RunningIsCur(P, s, q);
      RunningIsCur(P, s, j);
      NewSlots(P, s, l, j);
      PublishesEmbryo(P, s, l, j);
      hide Apply, Enabled, SysInv;
      StateChanges(P, s, l, q);
      StateChanges(P, s, l, j);
      FieldChanges(P, s, l, q);
      FieldChanges(P, s, l, j);
      hide Times;
    }
  }

  lemma {:induction false} PublishesEmbryo(P: Params, s: Sys, l: Label, i: int)
    requires Enabled(P, s, l) && 0 <= i < |s.proc|
    ensures l.LPublish? && l.slot == i ==> s.proc[i].state == EMBRYO
  {
  }

  /** On every run from boot in which processes are created by fork, nobody sleeps in wait() beside a child that has exited. */
  lemma {:induction false} WaitMissesNone(P: Params, ss: seq<Sys>, ls: seq<Label>, k: nat, q: int, j: int)
    requires P.Ok() && IsRun(P, ss, ls) && ss[0] == Boot(P) && k < |ss|
    requires forall m :: 0 <= m < |ls| ==> Forks(ss[m], ls[m]) && Looks(ss[m], ls[m])
    ensures !Missed(ss[k], q, j) && NoSelf(ss[k])
  {
    BootInv(P);
    if k > 0 {
      WaitMissesNone(P, ss, ls, k - 1, q, j);
      RunInv(P, ss, ls, k - 1);
      hide Apply, Enabled, SysInv, Missed, Looks, Forks, NoSelf;
      NoSelfStep(P, ss[k - 1], ls[k - 1]);
      MissedStep(P, ss[k - 1], ls[k - 1], q, j);
    }
  }
}
