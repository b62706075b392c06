/** acquiresleep() and releasesleep() of sleeplock.c over sleep(), wakeup() and
    kill() of proc.c, for any number of processes, one shared access at a time. */
module SleepLocks {

  /** Where a process is.  The comment says what its next step does. */
  datatype Pc =
    | Idle             // call acquiresleep()
    | AcquireLk        // acquire(&lk->lk)
    | Test             // while (lk->locked)
    | SleepPt          // sleep(): acquire(&ptable.lock)
    | SleepRelease     // release(lk)
    | SleepChan        // p->chan = chan
    | SleepState       // p->state = SLEEPING
    | Sched            // sched(), after which the scheduler releases ptable.lock
    | Asleep           // the scheduler acquires ptable.lock and picks the process once it is RUNNABLE
    | Awake            // p->chan = 0
    | AwakeRelease     // release(&ptable.lock)
    | Reacquire        // acquire(lk)
    | Take             // lk->locked = 1
    | SetPid           // lk->pid = myproc()->pid
    | TakeRelease      // release(&lk->lk)
    | Holding          // call releasesleep()
    | GiveLk           // acquire(&lk->lk)
    | Clear            // lk->locked = 0
    | ClearPid         // lk->pid = 0
    | WakePt           // wakeup(): acquire(&ptable.lock)
    | Wake(k: nat)     // wakeup1() at process k
    | WakeRelease      // release(&ptable.lock)
    | GiveRelease      // release(&lk->lk)

  /** lk and pt are the processes that hold lk->lk and ptable.lock, -1 if none; pid p + 1 belongs to process p. */
  datatype State = State(pcs: seq<Pc>, sleeping: seq<bool>, chan: seq<bool>, lk: int, pt: int, locked: bool, pid: int) {
    ghost predicate Shape() { |sleeping| == |chan| == |pcs| && -1 <= lk < |pcs| && -1 <= pt < |pcs| }
    ghost predicate Is(p: int) { Shape() && 0 <= p < |pcs| }
  }

  ghost predicate Init(s: State) {
    s.Shape() && s.lk == -1 && s.pt == -1 && !s.locked && s.pid == 0 && forall p :: 0 <= p < |s.pcs| ==> s.pcs[p] == Idle && !s.sleeping[p] && !s.chan[p]
  }

  /** Process p can take its next step: spin locks it acquires are free, and it is RUNNABLE if it has to be. */
  predicate Enabled(s: State, p: int)
    requires 0 <= p < |s.pcs| == |s.sleeping|
  {
    match s.pcs[p]
    case AcquireLk | Reacquire | GiveLk => s.lk == -1
    case SleepPt | WakePt => s.pt == -1
    case Asleep => s.pt == -1 && !s.sleeping[p]
    case _ => true
  }

  // A step of process p moves it on and changes what its comment says.

  function NextPc(s: State, c: Pc): Pc {
    match c
    case Idle => AcquireLk
    case AcquireLk => Test
    case Test => if s.locked then SleepPt else Take
    case SleepPt => SleepRelease
    case SleepRelease => SleepChan
    case SleepChan => SleepState
    case SleepState => Sched
    case Sched => Asleep
    case Asleep => Awake
    case Awake => AwakeRelease
    case AwakeRelease => Reacquire
    case Reacquire => Test
    case Take => SetPid
    case SetPid => TakeRelease
    case TakeRelease => Holding
    case Holding => GiveLk
    case GiveLk => Clear
    case Clear => ClearPid
    case ClearPid => WakePt
    case WakePt => Wake(0)
    case Wake(k) => if k >= |s.pcs| then WakeRelease else Wake(k + 1)
    case WakeRelease => GiveRelease
    case GiveRelease => Idle
  }

  function NextLk(s: State, p: int, c: Pc): int {
    match c
    case AcquireLk | Reacquire | GiveLk => p
    case SleepRelease | TakeRelease | GiveRelease => -1
    case _ => s.lk
  }

  function NextPt(s: State, p: int, c: Pc): int {
    match c
    case SleepPt | WakePt | Asleep => p
    case Sched | AwakeRelease | WakeRelease => -1
    case _ => s.pt
  }

  function NextLocked(s: State, c: Pc): bool { if c.Take? then true else if c.Clear? then false else s.locked }

  function NextPid(s: State, p: int, c: Pc): int { if c.SetPid? then p + 1 else if c.ClearPid? then 0 else s.pid }

  function NextChan(s: State, p: int, c: Pc): seq<bool>
    requires 0 <= p < |s.chan|
  {
    if c.SleepChan? then s.chan[p := true] else if c.Awake? then s.chan[p := false] else s.chan
  }

  function NextSleeping(s: State, p: int, c: Pc): seq<bool>
    requires 0 <= p < |s.sleeping| == |s.chan|
  {
    if c.SleepState? then s.sleeping[p := true]
    else if c.Wake? && c.k < |s.sleeping| then s.sleeping[c.k := s.sleeping[c.k] && !s.chan[c.k]]
    else s.sleeping
  }

  function Step(s: State, p: int): State
    requires 0 <= p < |s.pcs| == |s.sleeping| == |s.chan|
  {
    var c := s.pcs[p];
    State(s.pcs[p := NextPc(s, c)], NextSleeping(s, p, c), NextChan(s, p, c), NextLk(s, p, c), NextPt(s, p, c), NextLocked(s, c), NextPid(s, p, c))
  }

  /** kill() of process p, by anybody, while ptable.lock is free. */
  function Kill(s: State, p: int): State
    requires 0 <= p < |s.sleeping|
  {
    s.(sleeping := s.sleeping[p := false])
  }

  ghost predicate Next(s: State, s': State) {
    exists p :: s.Is(p) && ((Enabled(s, p) && s' == Step(s, p)) || (s.pt == -1 && s' == Kill(s, p)))
  }

  // ---------------------------------------------------------------- invariant

  predicate HasLk(c: Pc) {
    match c
    case Test | SleepPt | SleepRelease | Take | SetPid | TakeRelease | Clear | ClearPid | WakePt | Wake(_) | WakeRelease | GiveRelease => true
    case _ => false
  }

  predicate HasPt(c: Pc) {
    match c
    case SleepRelease | SleepChan | SleepState | Sched | Awake | AwakeRelease | Wake(_) | WakeRelease => true
    case _ => false
  }

  /** Between setting and clearing `locked`. */
  predicate Owns(c: Pc) { c.SetPid? || c.TakeRelease? || c.Holding? || c.GiveLk? || c.Clear? }

  /** Between clearing `locked` and the end of wakeup(). */
  predicate Wakes(c: Pc) { c.ClearPid? || c.WakePt? || c.Wake? }

  /** A process that cleared `locked` has not yet come past process p with its wakeup(). */
  predicate WillWake(s: State, p: int) {
    0 <= s.lk < |s.pcs| && Wakes(s.pcs[s.lk]) && (s.pcs[s.lk].Wake? ==> s.pcs[s.lk].k <= p)
  }

  /** On its way to sleep, or asleep. */
  predicate Dozing(s: State, p: int)
    requires 0 <= p < |s.pcs| == |s.sleeping|
  {
    s.pcs[p].SleepChan? || s.pcs[p].SleepState? || s.pcs[p].Sched? || (s.pcs[p].Asleep? && s.sleeping[p])
  }

  // What holds of each process, with c for where it is.

  ghost predicate LocksOk(s: State, p: int, c: Pc) { (s.lk == p <==> HasLk(c)) && (s.pt == p <==> HasPt(c)) }

  ghost predicate SleepOk(s: State, p: int, c: Pc)
    requires s.Is(p)
  {
    (s.sleeping[p] ==> c.Sched? || c.Asleep?) && (c.SleepState? || c.Sched? || c.Asleep? ==> s.chan[p]) && (c.Sched? ==> s.sleeping[p])
  }

  ghost predicate LockedOk(s: State, p: int, c: Pc) {
    && (Owns(c) ==> s.locked) && (c.Take? ==> !s.locked) && (c.SleepPt? || c.SleepRelease? ==> s.locked)
    && (Owns(c) && !c.SetPid? ==> s.pid == p + 1) && (Wakes(c) || c.WakeRelease? || c.GiveRelease? ==> !s.locked)
  }

  ghost predicate ProcOk(s: State, p: int)
    requires s.Is(p)
  {
    LocksOk(s, p, s.pcs[p]) && SleepOk(s, p, s.pcs[p]) && LockedOk(s, p, s.pcs[p]) && (Dozing(s, p) ==> s.locked || WillWake(s, p))
  }

  ghost predicate Exclusive(s: State) {
    && (forall p, q :: 0 <= p < |s.pcs| && 0 <= q < |s.pcs| && Owns(s.pcs[p]) && Owns(s.pcs[q]) ==> p == q)
    && (s.locked ==> exists p :: 0 <= p < |s.pcs| && Owns(s.pcs[p]))
  }

  ghost predicate Inv(s: State) {
    s.Shape() && Exclusive(s) && forall p :: 0 <= p < |s.pcs| ==> ProcOk(s, p)
  }

  lemma {:induction false} InitInv(s: State)
    requires Init(s)
    ensures Inv(s)
  {
  }

  lemma {:induction false} LocksStep(s: State, p: int, q: int)
    requires s.Is(p) && s.Is(q) && LocksOk(s, p, s.pcs[p]) && LocksOk(s, q, s.pcs[q]) && Enabled(s, p)
    ensures LocksOk(Step(s, p), q, Step(s, p).pcs[q])
  {
    hide NextSleeping, NextChan;
  }

  lemma {:induction false} SleepOwn(s: State, p: int)
    requires s.Is(p) && LocksOk(s, p, s.pcs[p]) && SleepOk(s, p, s.pcs[p]) && Enabled(s, p)
    ensures Step(s, p).Is(p) && SleepOk(Step(s, p), p, Step(s, p).pcs[p])
  {
  }

  lemma {:induction false} SleepStep(s: State, p: int, q: int)
    requires s.Is(p) && s.Is(q) && LocksOk(s, p, s.pcs[p]) && LocksOk(s, q, s.pcs[q]) && SleepOk(s, p, s.pcs[p]) && SleepOk(s, q, s.pcs[q]) && Enabled(s, p)
    ensures Step(s, p).Is(q) && SleepOk(Step(s, p), q, Step(s, p).pcs[q])
  {
    SleepOwn(s, p);
    if p != q {
      hide NextPc, NextLocked, NextPid;
      assert s.pcs[p].Wake? && s.pcs[p].k == q ==> !s.pcs[q].Sched?;
    }
  }

  lemma {:induction false} LockedStep(s: State, p: int, q: int)
    requires s.Is(p) && s.Is(q) && LocksOk(s, p, s.pcs[p]) && LocksOk(s, q, s.pcs[q]) && LockedOk(s, p, s.pcs[p]) && LockedOk(s, q, s.pcs[q])
    requires p != q ==> !(Owns(s.pcs[p]) && Owns(s.pcs[q]))
    ensures LockedOk(Step(s, p), q, Step(s, p).pcs[q])
  {
    hide NextSleeping, NextChan;
  }

  lemma {:induction false} DozeStep(s: State, p: int, q: int)
    requires s.Is(p) && s.Is(q) && ProcOk(s, p) && ProcOk(s, q) && Enabled(s, p)
    ensures var s' := Step(s, p); s'.Is(q) && (Dozing(s', q) ==> s'.locked || WillWake(s', q))
  {
  }

  /** A step keeps what holds of the process that takes it and of every other. */
  lemma {:induction false} ProcStep(s: State, p: int, q: int)
    requires s.Is(p) && s.Is(q) && ProcOk(s, p) && ProcOk(s, q) && Enabled(s, p)
    requires p != q ==> !(Owns(s.pcs[p]) && Owns(s.pcs[q]))
    ensures Step(s, p).Is(q) && ProcOk(Step(s, p), q)
  {
    LocksStep(s, p, q);
    SleepStep(s, p, q);
    LockedStep(s, p, q);
    DozeStep(s, p, q);
    hide Step, LocksOk, SleepOk, LockedOk, Dozing, WillWake;
  }

  lemma {:induction false} ExclusiveStep(s: State, p: int)
    requires Inv(s) && s.Is(p) && Enabled(s, p)
    ensures Exclusive(Step(s, p))
  {
    var s' := Step(s, p);
    assert ProcOk(s, p);
    forall q | 0 <= q < |s.pcs| && Owns(s.pcs[q]) ensures s.locked {
      assert ProcOk(s, q);
    }
    hide ProcOk;
    hide NextSleeping, NextChan, NextLk, NextPt;
    if s'.locked {
      if s.pcs[p].Take? {
        assert Owns(s'.pcs[p]);
      } else {
        var q :| 0 <= q < |s.pcs| && Owns(s.pcs[q]);
        assert Owns(s'.pcs[q]);
      }
    }
  }

  lemma {:induction false} KillInv(s: State, p: int)
    requires Inv(s) && s.Is(p) && s.pt == -1
    ensures Inv(Kill(s, p))
  {
    var s' := Kill(s, p);
    forall q | 0 <= q < |s'.pcs| ensures ProcOk(s', q) {
      assert ProcOk(s, q);
    }
  }

  lemma {:induction false} StepSize(s: State, p: int)
    requires s.Is(p)
    ensures |Step(s, p).pcs| == |s.pcs|
  {
  }

  /** Every step of every process keeps the invariant. */
  lemma {:induction false} StepInv(s: State, s': State)
    requires Inv(s) && Next(s, s')
    ensures Inv(s')
  {
    var p :| s.Is(p) && ((Enabled(s, p) && s' == Step(s, p)) || (s.pt == -1 && s' == Kill(s, p)));
    if Enabled(s, p) && s' == Step(s, p) {
      hide ProcOk, Step, Enabled;
      ProcStep(s, p, p);
      ExclusiveStep(s, p);
      forall q | 0 <= q < |s.pcs| ensures s'.Is(q) && ProcOk(s', q) {
        ProcStep(s, p, q);
      }
      assert |s'.pcs| == |s.pcs| by { StepSize(s, p); }
    } else {
      KillInv(s, p);
    }
  }

  ghost predicate Run(run: seq<State>) {
    run != [] && Init(run[0]) && forall i :: 0 <= i < |run| - 1 ==> Next(run[i], run[i + 1])
  }

  lemma {:induction false} RunInv(run: seq<State>, i: nat)
    requires Run(run) && i < |run|
    ensures Inv(run[i])
  {
    if i == 0 {
      InitInv(run[0]);
    } else {
      RunInv(run, i - 1);
      assert Next(run[i - 1], run[i - 1 + 1]);
      StepInv(run[i - 1], run[i]);
    }
  }

  // ---------------------------------------------------------------- what the lock is for

  /** On every run at most one process has the lock, and then lk->pid is its pid. */
  lemma {:induction false} MutualExclusion(run: seq<State>, i: nat, p: int, q: int)
    requires Run(run) && i < |run| && run[i].Is(p) && run[i].Is(q) && Owns(run[i].pcs[p]) && Owns(run[i].pcs[q])
    ensures p == q && run[i].locked && (run[i].pcs[p] == Holding ==> run[i].pid == p + 1)
  {
    RunInv(run, i);
    assert ProcOk(run[i], p);
  }

  /** On every run, when the lock is free and no process is between clearing it and the end of its wakeup(), nobody sleeps on it. */
  lemma {:induction false} NoLostWakeup(run: seq<State>, i: nat, p: int)
    requires Run(run) && i < |run| && run[i].Is(p) && !run[i].locked
    requires forall r :: 0 <= r < |run[i].pcs| ==> !Wakes(run[i].pcs[r])
    ensures !run[i].sleeping[p]
  {
    RunInv(run, i);
    assert ProcOk(run[i], p);
  }

  /** When the lock is free, a process that wants it or gives it back is never stuck: some process can take a step other than
      calling acquiresleep() anew. */
  lemma {:induction false} NotStuck(run: seq<State>, i: nat, p: int)
    requires Run(run) && i < |run| && run[i].Is(p) && !run[i].locked && run[i].pcs[p] != Idle
    ensures exists q :: run[i].Is(q) && run[i].pcs[q] != Idle && Enabled(run[i], q)
  {
    RunInv(run, i);
    var s := run[i];
    assert ProcOk(s, p);
    if s.pt != -1 {
      assert ProcOk(s, s.pt);
      assert Enabled(s, s.pt);
    } else if s.lk != -1 {
      assert ProcOk(s, s.lk);
      assert Enabled(s, s.lk);
    } else {
      assert Enabled(s, p);
    }
  }

  /** holdingsleep(), which looks at the lock while it holds lk->lk, is true exactly for the process that has the lock. */
  lemma {:induction false} HoldingIff(run: seq<State>, i: nat, p: int)
    requires Run(run) && i < |run| && run[i].Is(p) && run[i].lk == -1
    ensures run[i].locked && run[i].pid == p + 1 <==> run[i].pcs[p] in {Holding, GiveLk}
  {
    RunInv(run, i);
    var s := run[i];
    assert ProcOk(s, p);
    if s.locked {
      var q :| 0 <= q < |s.pcs| && Owns(s.pcs[q]);
      assert ProcOk(s, q);
    }
  }

  // ---------------------------------------------------------------- where the calls end

  datatype Phase = Outside | Acquiring | Has | Giving

  /** Outside both calls, inside acquiresleep(), between the two, inside releasesleep(). */
  function PhaseOf(c: Pc): Phase {
    match c
    case Idle => Outside
    case Holding => Has
    case GiveLk | Clear | ClearPid | WakePt | Wake(_) | WakeRelease | GiveRelease => Giving
    case _ => Acquiring
  }

  /** What a step of the system can do to process p: nothing, or p's own next step. */
  lemma {:induction false} OwnStep(run: seq<State>, i: nat, p: int)
    requires Run(run) && i + 1 < |run| && run[i].Is(p)
    ensures run[i + 1].Is(p) && |run[i + 1].pcs| == |run[i].pcs|
    ensures run[i + 1].pcs[p] == run[i].pcs[p] || (Enabled(run[i], p) && run[i + 1] == Step(run[i], p))
  {
    var s, s' := run[i], run[i + 1];
    assert Next(s, s');
    RunInv(run, i + 1);
    var q :| s.Is(q) && ((Enabled(s, q) && s' == Step(s, q)) || (s.pt == -1 && s' == Kill(s, q)));
  }

  /** A process gets out of acquiresleep() only into having the lock, and out of releasesleep() only to the outside. */
  lemma {:induction false} PhaseStep(run: seq<State>, i: nat, p: int)
    requires Run(run) && i + 1 < |run| && run[i].Is(p)
    ensures run[i + 1].Is(p)
    ensures var a, b := PhaseOf(run[i].pcs[p]), PhaseOf(run[i + 1].pcs[p]);
            b == a || (a == Outside && b == Acquiring) || (a == Acquiring && b == Has) || (a == Has && b == Giving) || (a == Giving && b == Outside)
  {
    hide NextLk, NextPt, NextLocked, NextPid, NextChan, NextSleeping;
    OwnStep(run, i, p);
  }

  /** A process that is inside acquiresleep() at i and no longer at j had the lock in between: `locked` and its pid say so. */
  lemma {:induction false} AcquireGivesLock(run: seq<State>, i: nat, j: nat, p: int) returns (h: nat)
    requires Run(run) && i < j < |run| && run[i].Is(p) && PhaseOf(run[i].pcs[p]) == Acquiring
    requires run[j].Is(p) && PhaseOf(run[j].pcs[p]) != Acquiring
    ensures i < h <= j && run[h].Is(p) && run[h].pcs[p] == Holding && run[h].locked && run[h].pid == p + 1
    ensures forall m :: i <= m < h ==> run[m].Is(p) && PhaseOf(run[m].pcs[p]) == Acquiring
    decreases j - i
  {
    hide Run, Inv, ProcOk, PhaseOf;
    PhaseStep(run, i, p);
    if PhaseOf(run[i + 1].pcs[p]) == Acquiring {
      h := AcquireGivesLock(run, i + 1, j, p);
    } else {
      h := i + 1;
      HoldingLocked(run, h, p);
    }
  }

  lemma {:induction false} HoldingLocked(run: seq<State>, h: nat, p: int)
    requires Run(run) && h < |run| && run[h].Is(p) && PhaseOf(run[h].pcs[p]) == Has
    ensures run[h].pcs[p] == Holding && run[h].locked && run[h].pid == p + 1
  {
    RunInv(run, h);
    assert ProcOk(run[h], p);
  }

  /** p's next step clears `locked`. */
  ghost predicate Clears(run: seq<State>, g: nat, p: int) {
    g + 1 < |run| && run[g].Is(p) && run[g].pcs[p] == Clear && run[g].locked && run[g + 1] == Step(run[g], p) && !run[g + 1].locked
  }

  /** Inside releasesleep(), behind the step that clears `locked`. */
  ghost predicate Past(c: Pc) { c.ClearPid? || c.WakePt? || c.Wake? || c.WakeRelease? || c.GiveRelease? }

  lemma {:induction false} ClearStep(run: seq<State>, i: nat, p: int)
    requires Run(run) && i + 1 < |run| && run[i].Is(p) && (PhaseOf(run[i].pcs[p]) == Has || (PhaseOf(run[i].pcs[p]) == Giving && !Past(run[i].pcs[p])))
    ensures run[i + 1].Is(p)
    ensures Clears(run, i, p) || PhaseOf(run[i + 1].pcs[p]) == Has || (PhaseOf(run[i + 1].pcs[p]) == Giving && !Past(run[i + 1].pcs[p]))
  {
    RunInv(run, i);
    assert ProcOk(run[i], p);
    hide NextLk, NextPt, NextPid, NextChan, NextSleeping, Run, Inv;
    OwnStep(run, i, p);
  }

  /** A process that has the lock at i and is outside at j has cleared `locked` itself in between. */
  lemma {:induction false} OnlyOwnClear(run: seq<State>, i: nat, j: nat, p: int) returns (g: nat)
    requires Run(run) && i < j < |run| && run[i].Is(p)
    requires PhaseOf(run[i].pcs[p]) == Has || (PhaseOf(run[i].pcs[p]) == Giving && !Past(run[i].pcs[p]))
    requires run[j].Is(p) && PhaseOf(run[j].pcs[p]) == Outside
    ensures i <= g < j && Clears(run, g, p)
    decreases j - i
  {
    hide Run, Clears;
    ClearStep(run, i, p);
    if Clears(run, i, p) { g := i; } else { g := OnlyOwnClear(run, i + 1, j, p); }
  }

  /** A call of acquiresleep() and the next time its process is outside again: in between it had the lock, and after that it
      cleared `locked` itself. */
  lemma {:induction false} CallGivesAndTakesLock(run: seq<State>, i: nat, j: nat, p: int) returns (h: nat, g: nat)
    requires Run(run) && i < j < |run| && run[i].Is(p) && PhaseOf(run[i].pcs[p]) == Acquiring && run[j].Is(p) && run[j].pcs[p] == Idle
    ensures i < h <= g < j && run[h].Is(p) && run[h].pcs[p] == Holding && run[h].locked && run[h].pid == p + 1 && Clears(run, g, p)
  {
    hide Run, Clears;
    h := AcquireGivesLock(run, i, j, p);
    g := OnlyOwnClear(run, h, j, p);
  }

  /** However a process comes to take the lock, its step before that found `locked` clear.  So one that slept, or did anything
      else at i, has tested `locked` since. */
  lemma {:induction false} TestedBefore(run: seq<State>, i: nat, j: nat, p: int) returns (t: nat)
    requires Run(run) && i < j < |run| && run[i].Is(p) && run[i].pcs[p] != Take && run[j].Is(p) && run[j].pcs[p] == Take
    ensures i <= t < j && run[t].Is(p) && run[t].pcs[p] == Test && !run[t].locked && run[t + 1] == Step(run[t], p)
    decreases j - i
  {
    hide Run, Enabled, NextLk, NextPt, NextLocked, NextPid, NextChan, NextSleeping;
    OwnStep(run, i, p);
    if run[i + 1].pcs[p] == Take { t := i; } else { t := TestedBefore(run, i + 1, j, p); }
  }

  // ---------------------------------------------------------------- the pid of the lock

  predicate HoldsPid(c: Pc) { c.TakeRelease? || c.Holding? || c.GiveLk? || c.Clear? || c.ClearPid? }

  /** lk->pid is 0, or that of a process between setting and clearing it. */
  ghost predicate PidOk(s: State) { s.pid == 0 || (0 <= s.pid - 1 < |s.pcs| && HoldsPid(s.pcs[s.pid - 1])) }

  lemma {:induction false} PidStep(s: State, p: int)
    requires s.Is(p) && PidOk(s)
    ensures PidOk(Step(s, p))
  {
    hide NextLk, NextPt, NextLocked, NextChan, NextSleeping;
  }

  lemma {:induction false} RunPid(run: seq<State>, i: nat)
    requires Run(run) && i < |run|
    ensures PidOk(run[i])
  {
    if i > 0 {
      RunPid(run, i - 1);
      var s, s' := run[i - 1], run[i];
      assert Next(run[i - 1], run[i - 1 + 1]);
      var p :| s.Is(p) && ((Enabled(s, p) && s' == Step(s, p)) || (s.pt == -1 && s' == Kill(s, p)));
      hide Step, Enabled;
      if s' == Step(s, p) { PidStep(s, p); }
    }
  }

  /** On every run, a lock that is free while nobody holds lk->lk has pid 0. */
  lemma {:induction false} FreePid(run: seq<State>, i: nat)
    requires Run(run) && i < |run| && !run[i].locked && run[i].lk == -1
    ensures run[i].pid == 0
  {
    RunInv(run, i);
    RunPid(run, i);
    var s := run[i];
    assert s.Is(s.pid - 1) ==> ProcOk(s, s.pid - 1);
  }

  // ---------------------------------------------------------------- the channel, and kill()

  predicate HasChan(c: Pc) { c.SleepState? || c.Sched? || c.Asleep? || c.Awake? }

  ghost predicate ChansOk(s: State) { |s.chan| == |s.pcs| && forall p :: 0 <= p < |s.pcs| ==> (s.chan[p] <==> HasChan(s.pcs[p])) }

  lemma {:induction false} ChanStep(s: State, p: int)
    requires s.Is(p) && ChansOk(s)
    ensures ChansOk(Step(s, p))
  {
    hide NextLk, NextPt, NextLocked, NextPid, NextSleeping;
    assert forall q :: 0 <= q < |s.pcs| && q != p ==> Step(s, p).pcs[q] == s.pcs[q];
  }

  /** On every run p->chan is the lock exactly from where sleep() sets it to where sleep() clears it. */
  lemma {:induction false} RunChans(run: seq<State>, i: nat)
    requires Run(run) && i < |run|
    ensures ChansOk(run[i])
  {
    if i > 0 {
      RunChans(run, i - 1);
      var s, s' := run[i - 1], run[i];
      assert Next(run[i - 1], run[i - 1 + 1]);
      var p :| s.Is(p) && ((Enabled(s, p) && s' == Step(s, p)) || (s.pt == -1 && s' == Kill(s, p)));
      hide Step, Enabled;
      if s' == Step(s, p) { ChanStep(s, p); }
    }
  }

  /** kill() lets a sleeper go on, and it tests `locked` again like any other; nothing else changes. */
  lemma {:induction false} KillWakes(s: State, p: int)
    requires s.Is(p) && s.pt == -1 && s.pcs[p] == Asleep
    ensures Enabled(Kill(s, p), p) && Kill(s, p).(sleeping := s.sleeping) == s
    ensures forall q :: 0 <= q < |s.pcs| && q != p ==> Kill(s, p).sleeping[q] == s.sleeping[q]
  {
  }
}
