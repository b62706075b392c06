/** What the steps of module Scheduler give a process over whole runs: the
    length of a quantum, and a bound on waiting. */
module Fairness {
  import opened Scheduler

  // ---------------------------------------------------------------- quantum accounting

  /** The step takes the last tick of slot i's quantum. */
  ghost predicate Expires(s: Sys, l: Label, i: int) {
    l == LCharge && s.cur == i && 0 <= i < |s.proc| && s.proc[i].ticksLeft == 1
  }

  /** Ticks slot i can be charged before its quantum expires next. */
  ghost function Remaining(P: Params, p: Proc): int {
    if p.ticksLeft > 0 then p.ticksLeft else P.quantum
  }

  /** A deadline changes only when the process is created or its quantum expires. */
  lemma {:induction false} DeadlineChanges(P: Params, s: Sys, l: Label, i: int)
    requires SysInv(P, s) && Enabled(P, s, l) && 0 <= i < |s.proc|
    ensures |Apply(P, s, l).proc| == |s.proc|
    ensures Apply(P, s, l).proc[i].vdeadline != s.proc[i].vdeadline ==> (l.LDate? && l.slot == i) || Expires(s, l, i)
    ensures Expires(s, l, i) ==> Apply(P, s, l).proc[i].vdeadline == s.ticks + P.offset(s.proc[i].niceness)
  {
    assert s.cur == i ==> ProcOk(P, s.proc[i], s.ticks, true);
    if l == LSchedule {
      ScheduleChanges(P, s);
    } else {
      hide PidsOk, QueueOk, ProcsOk;
    }
  }

  lemma {:induction false} ScheduleChanges(P: Params, s: Sys)
    requires SysInv(P, s) && s.cur == -1
    ensures var s' := Schedule(P, s);
            && |s'.proc| == |s.proc| && s'.ticks == s.ticks
            && (forall i :: 0 <= i < |s.proc| ==>
                  s'.proc[i] == if i == s'.cur then Dispatched(P.quantum, s.proc[i]) else s.proc[i])
            && (s'.cur != -1 ==> Earliest(s.proc, s'.cur))
  {
    if exists j :: Runnable(s.proc, j) { ScheduleDispatches(P, s); } else { ScheduleIdles(P, s); }
  }

  lemma {:induction false} RemainingStep(P: Params, s: Sys, l: Label, i: int)
    requires SysInv(P, s) && Enabled(P, s, l) && 0 <= i < |s.proc| && !Expires(s, l, i)
    ensures |Apply(P, s, l).proc| == |s.proc|
    ensures Remaining(P, Apply(P, s, l).proc[i]) ==
            Remaining(P, s.proc[i]) - if l == LCharge && s.cur == i then 1 else 0
  {
    assert s.cur == i ==> ProcOk(P, s.proc[i], s.ticks, true);
    if l == LSchedule {
      ScheduleChanges(P, s);
    } else {
      hide PidsOk, QueueOk, ProcsOk;
    }
  }

  /** Ticks charged to slot i over the first n steps. */
  ghost function ChargedTo(ss: seq<Sys>, ls: seq<Label>, i: int, n: nat): nat
    requires n <= |ls| <= |ss|
  {
    if n == 0 then 0 else ChargedTo(ss, ls, i, n - 1) + if ls[n - 1] == LCharge && ss[n - 1].cur == i then 1 else 0
  }

  lemma {:induction false} ChargedBeforeExpiry(P: Params, ss: seq<Sys>, ls: seq<Label>, i: int, n: nat)
    requires IsRun(P, ss, ls) && SysInv(P, ss[0]) && 0 <= i < P.nproc && n <= |ls|
    requires forall k :: 0 <= k < n ==> !Expires(ss[k], ls[k], i)
    ensures |ss[n].proc| == P.nproc
    ensures ChargedTo(ss, ls, i, n) + Remaining(P, ss[n].proc[i]) == Remaining(P, ss[0].proc[i])
  {
    RunInv(P, ss, ls, n);
    if n > 0 {
      RunInv(P, ss, ls, n - 1);
      ChargedBeforeExpiry(P, ss, ls, i, n - 1);
      RemainingStep(P, ss[n - 1], ls[n - 1], i);
    }
  }

  /** Up to and including the next expiry of slot i's quantum, exactly its remaining ticks are charged. */
  lemma {:induction false} ChargedUntilExpiry(P: Params, ss: seq<Sys>, ls: seq<Label>, i: int)
    requires IsRun(P, ss, ls) && SysInv(P, ss[0]) && 0 <= i < P.nproc && |ls| > 0
    requires Expires(ss[|ls| - 1], ls[|ls| - 1], i)
    requires forall k :: 0 <= k < |ls| - 1 ==> !Expires(ss[k], ls[k], i)
    ensures ChargedTo(ss, ls, i, |ls|) == Remaining(P, ss[0].proc[i]) <= P.quantum
  {
    ChargedBeforeExpiry(P, ss, ls, i, |ls| - 1);
    assert ProcOk(P, ss[0].proc[i], ss[0].ticks, i == ss[0].cur);
  }

  /** Between two consecutive expiries of slot i's quantum, exactly one quantum is charged. */
  lemma {:induction false} OneQuantumBetweenExpiries(P: Params, ss: seq<Sys>, ls: seq<Label>, i: int)
    requires IsRun(P, ss, ls) && SysInv(P, ss[0]) && 0 <= i < P.nproc && |ls| > 1
    requires Expires(ss[0], ls[0], i) && Expires(ss[|ls| - 1], ls[|ls| - 1], i)
    requires forall k :: 0 < k < |ls| - 1 ==> !Expires(ss[k], ls[k], i)
    ensures ChargedTo(ss[1..], ls[1..], i, |ls| - 1) == P.quantum
  {
    var tt, ms := ss[1..], ls[1..];
    StepInv(P, ss[0], ls[0]);
    assert forall k :: 0 <= k < |tt| ==> tt[k] == ss[k + 1];
    assert forall k :: 0 <= k < |ms| ==> ms[k] == ls[k + 1];
    ChargedUntilExpiry(P, tt, ms, i);
    assert tt[0].proc[i].ticksLeft == 0;
  }

  // ---------------------------------------------------------------- bounded waiting

  /** Slot w is RUNNABLE with deadline d, and every deadline set from now on is later than d. */
  ghost predicate Waiting(P: Params, s: Sys, w: int, d: int) {
    Runnable(s.proc, w) && s.proc[w].vdeadline == d && s.ticks + P.MinOffset() > d
  }

  /** Slot i may still run before w: it runs now, or its deadline is not later than d. */
  ghost predicate Ahead(s: Sys, w: int, d: int, i: int)
    requires 0 <= i < |s.proc|
  {
    var p := s.proc[i];
    i != w && (i == s.cur || (p.state in {EMBRYO, SLEEPING, RUNNABLE, RUNNING} && p.dated && p.vdeadline <= d))
  }

  /** Ticks slot i may still be charged before w is dispatched. */
  ghost function Claim(P: Params, s: Sys, w: int, d: int, i: int): int
    requires 0 <= i < |s.proc|
  {
    if Ahead(s, w, d, i) then Remaining(P, s.proc[i]) else 0
  }

  ghost function Claims(P: Params, s: Sys, w: int, d: int, n: nat): int
    requires n <= |s.proc|
  {
    if n == 0 then 0 else Claims(P, s, w, d, n - 1) + Claim(P, s, w, d, n - 1)
  }

  lemma {:induction false} OffsetsGrow(P: Params, n: int)
    requires P.Ok() && NICE_FIRST <= n <= NICE_LAST
    ensures P.MinOffset() <= P.offset(n) <= P.MaxOffset()
  {
  }

  /** No step but w's own dispatch takes w off the RUNNABLE processes, and nothing changes its deadline meanwhile. */
  lemma {:induction false} RunnableStep(P: Params, s: Sys, l: Label, w: int)
    requires SysInv(P, s) && Enabled(P, s, l) && Runnable(s.proc, w)
    ensures |Apply(P, s, l).proc| == |s.proc|
    ensures (Runnable(Apply(P, s, l).proc, w) && Apply(P, s, l).proc[w].vdeadline == s.proc[w].vdeadline)
         || (l == LSchedule && Apply(P, s, l).cur == w)
    ensures Apply(P, s, l).ticks == s.ticks + if l == LClock then 1 else 0
  {
    assert ProcOk(P, s.proc[w], s.ticks, w == s.cur);
    if l == LSchedule {
      ScheduleChanges(P, s);
    } else {
      hide PidsOk, QueueOk, ProcsOk;
    }
  }

  lemma {:induction false} WaitingStep(P: Params, s: Sys, l: Label, w: int, d: int)
    requires SysInv(P, s) && Enabled(P, s, l) && Waiting(P, s, w, d)
    ensures Waiting(P, Apply(P, s, l), w, d) || (l == LSchedule && Apply(P, s, l).cur == w)
  {
    hide SysInv, Enabled, Apply;
    RunnableStep(P, s, l, w);
  }

  lemma {:induction false} ClaimLocal(P: Params, s: Sys, l: Label, w: int, d: int, i: int)
    requires Enabled(P, s, l) && l != LSchedule && 0 <= i < |s.proc| && s.cur != w
    requires ProcOk(P, s.proc[i], s.ticks, i == s.cur) && P.quantum > 0
    requires s.ticks + P.offset(s.proc[i].niceness) > d && (l.LDate? ==> s.ticks + P.offset(l.nice) > d)
    ensures |Apply(P, s, l).proc| == |s.proc|
    ensures Claim(P, Apply(P, s, l), w, d, i) + (if l == LCharge && i == s.cur then 1 else 0) <= Claim(P, s, w, d, i)
  {
  }

  /** No step adds to what a slot may claim; a charged tick lowers the claim of the running slot. */
  lemma {:induction false} ClaimStep(P: Params, s: Sys, l: Label, w: int, d: int, i: int)
    requires SysInv(P, s) && Enabled(P, s, l) && Waiting(P, s, w, d) && Waiting(P, Apply(P, s, l), w, d)
    requires 0 <= i < |s.proc|
    ensures |Apply(P, s, l).proc| == |s.proc|
    ensures Claim(P, Apply(P, s, l), w, d, i) + (if l == LCharge && i == s.cur then 1 else 0) <= Claim(P, s, w, d, i)
  {
    assert ProcOk(P, s.proc[w], s.ticks, w == s.cur);
    assert ProcOk(P, s.proc[i], s.ticks, i == s.cur);
    if l == LSchedule {
      ScheduleChanges(P, s);
    } else {
      OffsetsGrow(P, s.proc[i].niceness);
      if l.LDate? { OffsetsGrow(P, l.nice); }
      hide Apply, PidsOk, QueueOk, ProcsOk, Claim;
      ClaimLocal(P, s, l, w, d, i);
    }
  }

  lemma {:induction false} ClaimsStep(P: Params, s: Sys, l: Label, w: int, d: int, n: nat)
    requires SysInv(P, s) && Enabled(P, s, l) && Waiting(P, s, w, d) && Waiting(P, Apply(P, s, l), w, d)
    requires n <= |s.proc|
    ensures |Apply(P, s, l).proc| == |s.proc|
    ensures Claims(P, Apply(P, s, l), w, d, n) + (if l == LCharge && 0 <= s.cur < n then 1 else 0) <= Claims(P, s, w, d, n)
  {
    assert 0 <= w < |s.proc|;
    hide SysInv, Enabled, Apply, Waiting;
    ClaimStep(P, s, l, w, d, w);
    if n > 0 {
      ClaimStep(P, s, l, w, d, n - 1);
      ClaimsStep(P, s, l, w, d, n - 1);
    }
  }

  ghost function Charged(ls: seq<Label>, n: nat): nat
    requires n <= |ls|
  {
    if n == 0 then 0 else Charged(ls, n - 1) + if ls[n - 1] == LCharge then 1 else 0
  }

  lemma {:induction false} ChargedWithinClaims(P: Params, ss: seq<Sys>, ls: seq<Label>, w: int, d: int, n: nat)
    requires IsRun(P, ss, ls) && SysInv(P, ss[0]) && Waiting(P, ss[0], w, d) && n <= |ls|
    requires forall k :: 0 <= k < n && ls[k] == LSchedule ==> ss[k + 1].cur != w
    ensures |ss[0].proc| == |ss[n].proc| == P.nproc && Waiting(P, ss[n], w, d)
    ensures Charged(ls, n) + Claims(P, ss[n], w, d, P.nproc) <= Claims(P, ss[0], w, d, P.nproc)
  {
    RunInv(P, ss, ls, n);
    if n > 0 {
      RunInv(P, ss, ls, n - 1);
      ChargedWithinClaims(P, ss, ls, w, d, n - 1);
      hide Enabled, Apply, Waiting, PidsOk, QueueOk, ProcsOk;
      WaitingStep(P, ss[n - 1], ls[n - 1], w, d);
      ClaimsStep(P, ss[n - 1], ls[n - 1], w, d, P.nproc);
      assert ls[n - 1] == LCharge ==> 0 <= ss[n - 1].cur by { assert Enabled(P, ss[n - 1], ls[n - 1]); }
    }
  }

  /** Every slot but w claims at most a quantum, and w claims nothing. */
  lemma {:induction false} ClaimsBound(P: Params, s: Sys, w: int, d: int, n: nat)
    requires P.quantum > 0 && ProcsOk(P, s) && n <= |s.proc| && 0 <= w
    ensures 0 <= Claims(P, s, w, d, n) <= Quanta(P, if w < n then n - 1 else n)
  {
    if n > 0 {
      ClaimsBound(P, s, w, d, n - 1);
      assert ProcOk(P, s.proc[n - 1], s.ticks, n - 1 == s.cur);
    }
  }

  ghost function Quanta(P: Params, n: int): int
    requires n >= 0
  {
    if n == 0 then 0 else Quanta(P, n - 1) + P.quantum
  }

  lemma {:induction false} QuantaProduct(P: Params, n: nat)
    ensures Quanta(P, n) == n * P.quantum
  {
    if n > 0 { QuantaProduct(P, n - 1); }
  }

  /** Bounded waiting: from the moment every new deadline is later than that of the RUNNABLE process w, at most
      nproc - 1 quanta of ticks are charged before w is dispatched, whatever the other processes do. */
  lemma {:induction false} BoundedWaiting(P: Params, ss: seq<Sys>, ls: seq<Label>, w: int, d: int)
    requires IsRun(P, ss, ls) && SysInv(P, ss[0]) && Waiting(P, ss[0], w, d)
    requires forall k :: 0 <= k < |ls| && ls[k] == LSchedule ==> ss[k + 1].cur != w
    ensures Charged(ls, |ls|) <= (P.nproc - 1) * P.quantum
  {
    hide Apply, Enabled, PidsOk, QueueOk, ProcsOk, Claims, Quanta;
    ChargedWithinClaims(P, ss, ls, w, d, |ls|);
    RunInv(P, ss, ls, |ls|);
    ClaimsBound(P, ss[0], w, d, P.nproc);
    ClaimsBound(P, ss[|ls|], w, d, P.nproc);
    QuantaProduct(P, P.nproc - 1);
  }

  /** The premise of BoundedWaiting comes true by itself: once the clock has moved by more than the spread of the
      offsets since w was seen RUNNABLE, unless w was dispatched meanwhile. */
  lemma {:induction false} WaitingComes(P: Params, ss: seq<Sys>, ls: seq<Label>, w: int, n: nat)
    requires IsRun(P, ss, ls) && SysInv(P, ss[0]) && Runnable(ss[0].proc, w) && n <= |ls|
    requires forall k :: 0 <= k < n && ls[k] == LSchedule ==> ss[k + 1].cur != w
    ensures Runnable(ss[n].proc, w) && ss[n].proc[w].vdeadline == ss[0].proc[w].vdeadline
    ensures ss[n].ticks > ss[0].ticks + P.MaxOffset() - P.MinOffset() ==>
      Waiting(P, ss[n], w, ss[0].proc[w].vdeadline)
  {
    assert ProcOk(P, ss[0].proc[w], ss[0].ticks, w == ss[0].cur);
    if n > 0 {
      WaitingComes(P, ss, ls, w, n - 1);
      RunInv(P, ss, ls, n - 1);
      hide Enabled, Apply, PidsOk, QueueOk, ProcsOk;
      RunnableStep(P, ss[n - 1], ls[n - 1], w);
    }
  }

  /** With w RUNNABLE the scheduler never idles: its next pass dispatches some process. */
  lemma {:induction false} NeverIdle(P: Params, s: Sys, w: int)
    requires SysInv(P, s) && s.cur == -1 && Runnable(s.proc, w)
    ensures Schedule(P, s).cur != -1 && Earliest(s.proc, Schedule(P, s).cur)
  {
    ScheduleDispatches(P, s);
  }
}
