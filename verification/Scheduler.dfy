/** The process table and the earliest-virtual-deadline scheduler of proc.c and
    trap.c as a transition system on one CPU.  Every step is one critical
    section under ptable.lock (or one interrupt); `queue` is the plain list the
    skip list stands for.  Class ProcTable.Machine implements the steps. */
module Scheduler {
  import opened Counting
  import opened SkipLists

  datatype ProcState = UNUSED | EMBRYO | SLEEPING | RUNNABLE | RUNNING | ZOMBIE

  /** Sleep channels are addresses; only equality matters. */
  datatype Chan = NoChan | TicksChan | ProcChan(slot: int) | OtherChan(id: int)

  /** The fields of struct proc that scheduling uses.  `dated` is auxiliary: vdeadline was
      computed for the present occupant of the slot. */
  datatype Proc = Proc(state: ProcState, pid: int, parent: int, chan: Chan, killed: bool,
                       niceness: int, vdeadline: int, ticksLeft: int, dated: bool)

  datatype Sys = Sys(proc: seq<Proc>, queue: seq<Entry>, ticks: int, nextpid: int, cur: int, init: int)

  const NICE_FIRST := -20
  const NICE_LAST := 19

  /** Build-time parameters; offset(n) is what a deadline adds to the current tick for niceness n. */
  datatype Params = Params(nproc: nat, quantum: int, offset: int -> int) {
    ghost predicate Ok() {
      && nproc > 0 && quantum > 0
      && (forall m, n :: NICE_FIRST <= m < n <= NICE_LAST ==> offset(m) < offset(n))
      && offset(NICE_FIRST) > 0
    }

    ghost function MinOffset(): int { offset(NICE_FIRST) }
    ghost function MaxOffset(): int { offset(NICE_LAST) }
  }

  /** bfs.h as the compiler reads it: the macro body is not parenthesised. */
  function CompiledOffset(nice: int): int { nice + 21 * 50 }

  /** proc.h as it is documented. */
  function DocumentedOffset(nice: int): int { (nice + 21) * 50 }

  lemma {:induction false} OffsetsOk(nproc: nat)
    requires nproc > 0
    ensures Params(nproc, 50, CompiledOffset).Ok() && Params(nproc, 50, DocumentedOffset).Ok()
    ensures Params(nproc, 50, CompiledOffset).MaxOffset() - Params(nproc, 50, CompiledOffset).MinOffset() == 39
    ensures Params(nproc, 50, DocumentedOffset).MaxOffset() - Params(nproc, 50, DocumentedOffset).MinOffset() == 1950
  {
  }

  function EntryOf(p: Proc): Entry { Entry(p.vdeadline, p.pid) }

  // ---------------------------------------------------------------- steps

  /** What one process looks like after wakeup1(c). */
  function Woken(p: Proc, c: Chan): Proc {
    if p.state == SLEEPING && p.chan == c then p.(state := RUNNABLE) else p
  }

  function WokenAll(ps: seq<Proc>, c: Chan): (r: seq<Proc>)
    ensures |r| == |ps|
  {
    seq(|ps|, i requires 0 <= i < |ps| => Woken(ps[i], c))
  }

  /** The scan of scheduler() over the table from slot i on. */
  ghost function Populate(nproc: nat, ps: seq<Proc>, q: seq<Entry>, i: nat): seq<Entry>
    requires i <= |ps|
    decreases |ps| - i
  {
    if i == |ps| then q else Populate(nproc, ps, Scanned(nproc, ps[i], q), i + 1)
  }

  /** One turn of that scan: slInsert fails when all nproc nodes are taken. */
  ghost function Scanned(nproc: nat, p: Proc, q: seq<Entry>): seq<Entry> {
    match p.state
    case UNUSED => q
    case RUNNABLE => if EntryOf(p) !in q && |q| != nproc then Inserted(q, EntryOf(p)) else q
    case _ => Removed(q, EntryOf(p))
  }

  /** The last slot at or above i holding pid, else `dflt`. */
  function SlotOf(ps: seq<Proc>, pid: int, i: nat, dflt: int): int
    requires i <= |ps|
    decreases |ps| - i
  {
    if i == |ps| then dflt else SlotOf(ps, pid, i + 1, if ps[i].pid == pid then i else dflt)
  }

  function Dispatched(quantum: int, p: Proc): Proc {
    p.(state := RUNNING, ticksLeft := if p.ticksLeft <= 0 then quantum else p.ticksLeft)
  }

  /** scheduler(): one pass of the loop, up to the switch to the chosen process. */
  ghost function Schedule(P: Params, s: Sys): Sys {
    var q := Populate(P.nproc, s.proc, s.queue, 0);
    if q == [] then s.(queue := q)
    else
      var k := SlotOf(s.proc, q[0].pid, 0, q[0].pid - 1);
      if 0 <= k < |s.proc|
      then s.(queue := Removed(q, q[0]), proc := s.proc[k := Dispatched(P.quantum, s.proc[k])], cur := k)
      else s.(queue := Removed(q, q[0]))
  }

  function Yielded(P: Params, p: Proc, ticks: int): Proc {
    var p' := p.(state := RUNNABLE);
    if p.ticksLeft <= 0 then p'.(vdeadline := ticks + P.offset(p.niceness)) else p'
  }

  /** Effect of exit() by slot c on the process in slot i. */
  ghost function AfterExit(ps: seq<Proc>, c: int, init: int, i: int): Proc
    requires 0 <= c < |ps| && 0 <= i < |ps|
  {
    if i == c then ps[i].(state := ZOMBIE, parent := if ps[i].parent == c then init else ps[i].parent)
    else
      var p := Woken(ps[i], ProcChan(ps[c].parent));
      var p' := if exists k :: 0 <= k < |ps| && ps[k].parent == c && ps[k].state == ZOMBIE
                then Woken(p, ProcChan(init)) else p;
      if p'.parent == c then p'.(parent := init) else p'
  }

  datatype Label =
    | LSchedule               // one pass of scheduler()
    | LYield                  // yield(), called with or without ticks left
    | LSleep(chan: Chan)      // sleep()
    | LWakeup(chan: Chan)     // wakeup()
    | LKill(slot: int)        // kill() finding its target in this slot
    | LExit                   // exit()
    | LReap(slot: int)        // wait() collecting a zombie
    | LAlloc(slot: int)       // allocproc() under the lock
    | LDate(slot: int, nice: int)  // niceness and vdeadline set: allocproc() with 0, nicefork() with its argument
    | LAbort(slot: int)       // a failed allocproc() or nicefork()
    | LPublish(slot: int, parent: int)  // the new process becomes RUNNABLE
    | LClock                  // ticks++ and wakeup(&ticks)
    | LCharge                 // the tick charged to the running process, with yield() at zero

  ghost predicate Enabled(P: Params, s: Sys, l: Label) {
    match l
    case LSchedule => s.cur == -1
    case LYield => 0 <= s.cur < |s.proc|
    case LSleep(c) => 0 <= s.cur < |s.proc|
    case LWakeup(c) => true
    case LKill(i) => 0 <= i < |s.proc|
    case LExit => 0 <= s.cur < |s.proc| && s.cur != s.init
    case LReap(i) => 0 <= i < |s.proc| && s.proc[i].state == ZOMBIE
    case LAlloc(i) => 0 <= i < |s.proc| && s.proc[i].state == UNUSED
    case LDate(i, n) => 0 <= i < |s.proc| && s.proc[i].state == EMBRYO && NICE_FIRST <= n <= NICE_LAST
    case LAbort(i) => 0 <= i < |s.proc| && s.proc[i].state == EMBRYO
    case LPublish(i, _) => 0 <= i < |s.proc| && s.proc[i].state == EMBRYO && s.proc[i].dated
    case LClock => true
    case LCharge => 0 <= s.cur < |s.proc|
  }

  ghost function Apply(P: Params, s: Sys, l: Label): Sys
    requires Enabled(P, s, l)
  {
    match l
    case LSchedule => Schedule(P, s)
    case LYield => s.(proc := s.proc[s.cur := Yielded(P, s.proc[s.cur], s.ticks)], cur := -1)
    case LSleep(c) => s.(proc := s.proc[s.cur := s.proc[s.cur].(state := SLEEPING, chan := c)], cur := -1)
    case LWakeup(c) => s.(proc := WokenAll(s.proc, c))
    case LKill(i) =>
      s.(proc := s.proc[i := s.proc[i].(killed := true,
        state := if s.proc[i].state == SLEEPING then RUNNABLE else s.proc[i].state)])
    case LExit => s.(proc := seq(|s.proc|, i requires 0 <= i < |s.proc| => AfterExit(s.proc, s.cur, s.init, i)), cur := -1)
    case LReap(i) => s.(proc := s.proc[i := s.proc[i].(state := UNUSED, pid := 0, parent := -1, killed := false)])
    case LAlloc(i) =>
      s.(proc := s.proc[i := s.proc[i].(state := EMBRYO, pid := s.nextpid, dated := false)], nextpid := s.nextpid + 1)
    case LDate(i, n) =>
      s.(proc := s.proc[i := s.proc[i].(niceness := n, vdeadline := s.ticks + P.offset(n), dated := true)])
    case LAbort(i) => s.(proc := s.proc[i := s.proc[i].(state := UNUSED)])
    case LPublish(i, p) => s.(proc := s.proc[i := s.proc[i].(state := RUNNABLE, parent := p)])
    case LClock => s.(ticks := s.ticks + 1, proc := WokenAll(s.proc, TicksChan))
    case LCharge =>
      var p := s.proc[s.cur].(ticksLeft := s.proc[s.cur].ticksLeft - 1);
      if p.ticksLeft == 0 then s.(proc := s.proc[s.cur := Yielded(P, p, s.ticks)], cur := -1)
      else s.(proc := s.proc[s.cur := p])
  }

  // ---------------------------------------------------------------- invariant

  ghost predicate Runnable(ps: seq<Proc>, i: int) {
    0 <= i < |ps| && ps[i].state == RUNNABLE
  }

  /** e is the current entry of some RUNNABLE process. */
  ghost predicate Backed(ps: seq<Proc>, e: Entry) {
    exists i :: Runnable(ps, i) && EntryOf(ps[i]) == e
  }

  ghost predicate PidsOk(ps: seq<Proc>, nextpid: int) {
    && nextpid > 0
    && (forall i :: 0 <= i < |ps| ==> 0 <= ps[i].pid < nextpid)
    && (forall i :: 0 <= i < |ps| && ps[i].state != UNUSED ==> ps[i].pid > 0)
    && (forall i, j :: 0 <= i < j < |ps| && ps[i].pid == ps[j].pid ==> ps[i].pid == 0)
  }

  /** Each entry is there once, in deadline order, and only for RUNNABLE processes. */
  ghost predicate QueueOk(ps: seq<Proc>, q: seq<Entry>) {
    Sorted(q) && Distinct(q) && forall e :: e in q ==> Backed(ps, e)
  }

  /** What holds of each process separately. */
  ghost predicate ProcOk(P: Params, p: Proc, ticks: int, running: bool) {
    && (p.state == RUNNING <==> running)
    && 0 <= p.ticksLeft <= P.quantum
    && (running ==> p.ticksLeft > 0)
    && NICE_FIRST <= p.niceness <= NICE_LAST
    && (p.state in {SLEEPING, RUNNABLE, RUNNING} ==> p.dated)
    && (p.dated ==> p.vdeadline <= ticks + P.MaxOffset())
  }

  ghost predicate ProcsOk(P: Params, s: Sys) {
    forall i :: 0 <= i < |s.proc| ==> ProcOk(P, s.proc[i], s.ticks, i == s.cur)
  }

  ghost predicate SysInv(P: Params, s: Sys) {
    && P.Ok()
    && |s.proc| == P.nproc && -1 <= s.cur < P.nproc
    && PidsOk(s.proc, s.nextpid)
    && QueueOk(s.proc, s.queue)
    && ProcsOk(P, s)
  }

  // ---------------------------------------------------------------- the scan of the table

  /** Two RUNNABLE slots never share an entry. */
  lemma {:induction false} BackedOnce(ps: seq<Proc>, nextpid: int, i: int, e: Entry)
    requires PidsOk(ps, nextpid) && 0 <= i < |ps| && ps[i].state != UNUSED && ps[i].pid == e.pid
    requires Backed(ps, e)
    ensures ps[i].state == RUNNABLE && EntryOf(ps[i]) == e
  {
    var k :| Runnable(ps, k) && EntryOf(ps[k]) == e;
    assert ps[k].pid == ps[i].pid;
  }

  /** The queue has room for every RUNNABLE process that is not in it. */
  lemma {:induction false} RoomFor(ps: seq<Proc>, nextpid: int, q: seq<Entry>, i: int)
    requires PidsOk(ps, nextpid) && QueueOk(ps, q)
    requires 0 <= i < |ps| && EntryOf(ps[i]) !in q
    ensures |q| < |ps|
  {
    var slots := seq(|q|, k requires 0 <= k < |q| => Slot(ps, q[k]));
    forall j, k | 0 <= j < k < |q| ensures slots[j] != slots[k] {
      SlotBacks(ps, q[j]);
      SlotBacks(ps, q[k]);
    }
    assert Distinct(slots);
    DistinctCard(slots);
    var used := set x | x in slots;
    forall x | x in used ensures x in UpTo(|ps|) - {i} {
      var k :| 0 <= k < |q| && slots[k] == x;
      SlotBacks(ps, q[k]);
    }
    SubsetCard(used, UpTo(|ps|) - {i});
  }

  ghost function Slot(ps: seq<Proc>, e: Entry): int {
    if k :| Runnable(ps, k) && EntryOf(ps[k]) == e then k else -1
  }

  lemma {:induction false} SlotBacks(ps: seq<Proc>, e: Entry)
    requires Backed(ps, e)
    ensures Runnable(ps, Slot(ps, e)) && EntryOf(ps[Slot(ps, e)]) == e
  {
  }

  /** Every RUNNABLE slot below i has its entry in q. */
  ghost predicate Covered(ps: seq<Proc>, q: seq<Entry>, i: int) {
    forall k :: 0 <= k < i && Runnable(ps, k) ==> EntryOf(ps[k]) in q
  }

  ghost predicate Scheduled(ps: seq<Proc>, q: seq<Entry>, i: int) {
    QueueOk(ps, q) && Covered(ps, q, i)
  }

  lemma {:induction false} InsertedMembers(q: seq<Entry>, e: Entry)
    ensures forall x :: x in Inserted(q, e) <==> x == e || x in q
  {
    InsertedMultiset(q, e);
    forall x ensures x in Inserted(q, e) <==> x == e || x in q {
      assert x in multiset(Inserted(q, e)) <==> x in multiset(q) || x == e;
    }
  }

  lemma {:induction false} InsertedDistinct(q: seq<Entry>, e: Entry)
    requires Distinct(q) && e !in q
    ensures Distinct(Inserted(q, e))
  {
    var r, d := Rank(q, e.value), Inserted(q, e);
    assert forall k :: 0 <= k < |d| && k != r ==> d[k] == q[if k < r then k else k - 1];
  }

  lemma {:induction false} ScannedOk(ps: seq<Proc>, nextpid: int, q: seq<Entry>, i: nat)
    requires PidsOk(ps, nextpid) && i < |ps| && Scheduled(ps, q, i)
    ensures Scheduled(ps, Scanned(|ps|, ps[i], q), i + 1)
    ensures ps[i].state == RUNNABLE && EntryOf(ps[i]) !in q ==> Scanned(|ps|, ps[i], q) == Inserted(q, EntryOf(ps[i]))
    ensures ps[i].state != RUNNABLE ==> Scanned(|ps|, ps[i], q) == q
  {
    var e := EntryOf(ps[i]);
    if ps[i].state == RUNNABLE {
      if e !in q {
        assert Runnable(ps, i);
        RoomFor(ps, nextpid, q, i);
        InsertedSorted(q, e);
        InsertedMembers(q, e);
        InsertedDistinct(q, e);
      }
    } else if ps[i].state != UNUSED {
      if e in q { BackedOnce(ps, nextpid, i, e); }
      RemovedAbsent(q, e);
    }
  }

  /** After the scan the queue holds exactly the RUNNABLE processes. */
  lemma {:induction false} PopulateOk(ps: seq<Proc>, nextpid: int, q: seq<Entry>, i: nat)
    requires PidsOk(ps, nextpid) && i <= |ps| && Scheduled(ps, q, i)
    ensures Scheduled(ps, Populate(|ps|, ps, q, i), |ps|)
    decreases |ps| - i
  {
    hide PidsOk, Scheduled, Scanned;
    if i < |ps| {
      ScannedOk(ps, nextpid, q, i);
      PopulateOk(ps, nextpid, Scanned(|ps|, ps[i], q), i + 1);
    }
  }

  lemma {:induction false} SlotOfPid(ps: seq<Proc>, pid: int, i: nat, dflt: int, k: int)
    requires i <= |ps| && 0 <= k < |ps| && ps[k].pid == pid
    requires forall j :: 0 <= j < |ps| && j != k ==> ps[j].pid != pid
    requires k < i ==> dflt == k
    ensures SlotOf(ps, pid, i, dflt) == k
    decreases |ps| - i
  {
    if i < |ps| { SlotOfPid(ps, pid, i + 1, if ps[i].pid == pid then i else dflt, k); }
  }

  /** k is a RUNNABLE slot and no RUNNABLE process has an earlier deadline. */
  ghost predicate Earliest(ps: seq<Proc>, k: int) {
    Runnable(ps, k) && forall j :: Runnable(ps, j) ==> ps[k].vdeadline <= ps[j].vdeadline
  }

  /** q holds exactly the RUNNABLE processes other than slot k, once each and in deadline order. */
  ghost predicate QueueWithout(ps: seq<Proc>, q: seq<Entry>, k: int)
    requires 0 <= k < |ps|
  {
    Sorted(q) && Distinct(q) && forall e :: e in q <==> Backed(ps, e) && e != EntryOf(ps[k])
  }

  lemma {:induction false} FirstLeaves(ps: seq<Proc>, nextpid: int, q: seq<Entry>, k: int)
    requires PidsOk(ps, nextpid) && Scheduled(ps, q, |ps|) && q != []
    requires k == SlotOf(ps, q[0].pid, 0, q[0].pid - 1)
    ensures Earliest(ps, k) && QueueWithout(ps, Removed(q, q[0]), k)
  {
    FirstIsEarliest(ps, nextpid, q);
    QueueIsRunnables(ps, q);
    RemoveFirst(q);
  }

  /** One pass of scheduler() dispatches a process of earliest deadline among all RUNNABLE ones. */
  lemma {:induction false} ScheduleDispatches(P: Params, s: Sys)
    requires SysInv(P, s) && s.cur == -1 && exists j :: Runnable(s.proc, j)
    ensures var s' := Schedule(P, s);
            && Earliest(s.proc, s'.cur) && QueueWithout(s.proc, s'.queue, s'.cur)
            && s' == s.(cur := s'.cur, queue := s'.queue, proc := s.proc[s'.cur := Dispatched(P.quantum, s.proc[s'.cur])])
  {
    hide PidsOk, Sorted, Distinct, Backed, ProcsOk, Removed, QueueWithout;
    assert Scheduled(s.proc, s.queue, 0);
    PopulateOk(s.proc, s.nextpid, s.queue, 0);
    var q := Populate(P.nproc, s.proc, s.queue, 0);
    var j :| Runnable(s.proc, j);
    assert EntryOf(s.proc[j]) in q;
    FirstLeaves(s.proc, s.nextpid, q, SlotOf(s.proc, q[0].pid, 0, q[0].pid - 1));
  }

  lemma {:induction false} RemoveFirst(q: seq<Entry>)
    requires q != [] && Sorted(q) && Distinct(q)
    ensures var r := Removed(q, q[0]); Sorted(r) && Distinct(r) && forall e :: e in r <==> e in q && e != q[0]
  {
    assert Removed(q, q[0]) == q[1..];
    assert forall e :: e in q <==> e == q[0] || e in q[1..];
  }

  /** The pid of the first entry is always found in the table. */
  lemma {:induction false} ScheduleSlot(P: Params, s: Sys)
    requires SysInv(P, s) && s.cur == -1
    ensures var q := Populate(P.nproc, s.proc, s.queue, 0);
            q != [] ==> 0 <= SlotOf(s.proc, q[0].pid, 0, q[0].pid - 1) < |s.proc|
  {
    PopulateOk(s.proc, s.nextpid, s.queue, 0);
    var q := Populate(P.nproc, s.proc, s.queue, 0);
    if q != [] { FirstIsEarliest(s.proc, s.nextpid, q); }
  }

  /** With nothing RUNNABLE the pass leaves everything as it was, and the list is empty. */
  lemma {:induction false} ScheduleIdles(P: Params, s: Sys)
    requires SysInv(P, s) && !exists j :: Runnable(s.proc, j)
    ensures Schedule(P, s) == s && s.queue == []
  {
    PopulateOk(s.proc, s.nextpid, s.queue, 0);
    NoneRunnable(s.proc, s.queue);
    NoneRunnable(s.proc, Populate(P.nproc, s.proc, s.queue, 0));
  }

  lemma {:induction false} NoneRunnable(ps: seq<Proc>, q: seq<Entry>)
    requires QueueOk(ps, q) && !exists j :: Runnable(ps, j)
    ensures q == []
  {
    if q != [] { SomeRunnable(ps, q); }
  }

  lemma {:induction false} SomeRunnable(ps: seq<Proc>, q: seq<Entry>)
    requires QueueOk(ps, q) && q != []
    ensures exists j :: Runnable(ps, j)
  {
    assert Backed(ps, q[0]);
  }

  lemma {:induction false} QueueIsRunnables(ps: seq<Proc>, q: seq<Entry>)
    requires QueueOk(ps, q) && Covered(ps, q, |ps|)
    ensures forall e :: e in q <==> Backed(ps, e)
  {
  }

  lemma {:induction false} FirstIsEarliest(ps: seq<Proc>, nextpid: int, q: seq<Entry>)
    requires PidsOk(ps, nextpid) && QueueOk(ps, q) && Covered(ps, q, |ps|) && q != []
    ensures Earliest(ps, SlotOf(ps, q[0].pid, 0, q[0].pid - 1))
    ensures EntryOf(ps[SlotOf(ps, q[0].pid, 0, q[0].pid - 1)]) == q[0]
  {
    assert q[0] in q;
    var k :| Runnable(ps, k) && EntryOf(ps[k]) == q[0];
    SlotOfPid(ps, q[0].pid, 0, q[0].pid - 1, k);
    forall j | Runnable(ps, j) ensures ps[k].vdeadline <= ps[j].vdeadline {
      assert EntryOf(ps[j]) in q;
      var m :| 0 <= m < |q| && q[m] == EntryOf(ps[j]);
      assert m > 0 ==> q[0].value <= q[m].value;
    }
  }

  // ---------------------------------------------------------------- every step keeps the invariant

  ghost predicate KeepsRunnable(ps: seq<Proc>, ps': seq<Proc>) {
    |ps| == |ps'| && forall i :: Runnable(ps, i) ==> Runnable(ps', i) && EntryOf(ps'[i]) == EntryOf(ps[i])
  }

  lemma {:induction false} QueueKept(ps: seq<Proc>, ps': seq<Proc>, q: seq<Entry>)
    requires QueueOk(ps, q) && KeepsRunnable(ps, ps')
    ensures QueueOk(ps', q)
  {
    forall e | e in q ensures Backed(ps', e) {
      var i :| Runnable(ps, i) && EntryOf(ps[i]) == e;
      assert Runnable(ps', i);
    }
  }

  lemma {:induction false} QueueLess(ps: seq<Proc>, nextpid: int, q: seq<Entry>, k: int, p: Proc)
    requires PidsOk(ps, nextpid) && Runnable(ps, k) && QueueWithout(ps, q, k)
    ensures QueueOk(ps[k := p], q)
  {
    forall e | e in q ensures Backed(ps[k := p], e) {
      var i :| Runnable(ps, i) && EntryOf(ps[i]) == e;
      assert i != k && Runnable(ps[k := p], i);
    }
  }

  ghost predicate SamePids(ps: seq<Proc>, ps': seq<Proc>) {
    && |ps| == |ps'|
    && forall i :: 0 <= i < |ps| ==> ps'[i].pid == ps[i].pid && (ps[i].state == UNUSED ==> ps'[i].state == UNUSED)
  }

  lemma {:induction false} PidsSame(ps: seq<Proc>, ps': seq<Proc>, nextpid: int)
    requires PidsOk(ps, nextpid) && SamePids(ps, ps')
    ensures PidsOk(ps', nextpid)
  {
  }

  lemma {:induction false} PidsOne(ps: seq<Proc>, nextpid: int, i: int, p: Proc)
    requires PidsOk(ps, nextpid) && 0 <= i < |ps|
    requires p.pid == nextpid || (p.pid == 0 && p.state == UNUSED)
    ensures PidsOk(ps[i := p], nextpid + 1) && (p.pid == 0 ==> PidsOk(ps[i := p], nextpid))
  {
  }

  lemma {:induction false} SamePidsStep(P: Params, s: Sys, l: Label)
    requires Enabled(P, s, l) && !l.LSchedule? && !l.LAlloc? && !l.LReap?
    requires 0 <= s.cur < |s.proc| ==> s.proc[s.cur].state == RUNNING
    ensures SamePids(s.proc, Apply(P, s, l).proc) && Apply(P, s, l).nextpid == s.nextpid
  {
  }

  lemma {:induction false} PidsStep(P: Params, s: Sys, l: Label)
    requires SysInv(P, s) && Enabled(P, s, l) && l != LSchedule
    ensures PidsOk(Apply(P, s, l).proc, Apply(P, s, l).nextpid)
  {
    if l.LAlloc? || l.LReap? {
      hide QueueOk, ProcsOk, PidsOk;
      PidsOne(s.proc, s.nextpid, l.slot, Apply(P, s, l).proc[l.slot]);
    } else {
      assert s.cur != -1 ==> s.proc[s.cur].state == RUNNING;
      hide QueueOk, ProcsOk, PidsOk, Enabled, Apply;
      SamePidsStep(P, s, l);
      PidsSame(s.proc, Apply(P, s, l).proc, s.nextpid);
    }
  }

  lemma {:induction false} KeepsRunnableStep(P: Params, s: Sys, l: Label)
    requires Enabled(P, s, l) && !l.LSchedule?
    requires forall i :: 0 <= i < |s.proc| ==> (s.proc[i].state == RUNNING <==> i == s.cur)
    ensures KeepsRunnable(s.proc, Apply(P, s, l).proc) && Apply(P, s, l).queue == s.queue
  {
  }

  lemma {:induction false} QueueStep(P: Params, s: Sys, l: Label)
    requires SysInv(P, s) && Enabled(P, s, l) && l != LSchedule
    ensures QueueOk(Apply(P, s, l).proc, Apply(P, s, l).queue)
  {
    hide Enabled, Apply, PidsOk, QueueOk, KeepsRunnable;
    KeepsRunnableStep(P, s, l);
    QueueKept(s.proc, Apply(P, s, l).proc, s.queue);
  }

  lemma {:induction false} ProcStep(P: Params, s: Sys, l: Label, i: int)
    requires Enabled(P, s, l) && !l.LSchedule? && 0 <= i < |s.proc| && P.quantum > 0
    requires ProcOk(P, s.proc[i], s.ticks, i == s.cur)
    requires P.offset(s.proc[i].niceness) <= P.MaxOffset() && (l.LDate? ==> P.offset(l.nice) <= P.MaxOffset())
    ensures |Apply(P, s, l).proc| == |s.proc| && (Apply(P, s, l).cur == -1 || Apply(P, s, l).cur == s.cur)
    ensures ProcOk(P, Apply(P, s, l).proc[i], Apply(P, s, l).ticks, i == Apply(P, s, l).cur)
  {
  }

  lemma {:induction false} ProcsStep(P: Params, s: Sys, l: Label)
    requires SysInv(P, s) && Enabled(P, s, l) && l != LSchedule
    ensures |Apply(P, s, l).proc| == |s.proc| && -1 <= Apply(P, s, l).cur < P.nproc
    ensures ProcsOk(P, Apply(P, s, l))
  {
    assert forall n :: NICE_FIRST <= n <= NICE_LAST ==> P.offset(n) <= P.MaxOffset();
    assert l.LDate? ==> NICE_FIRST <= l.nice <= NICE_LAST;
    hide Enabled, Apply, PidsOk, QueueOk;
    ProcStep(P, s, l, 0);
    forall i | 0 <= i < |s.proc| ensures ProcOk(P, Apply(P, s, l).proc[i], Apply(P, s, l).ticks, i == Apply(P, s, l).cur) {
      ProcStep(P, s, l, i);
    }
  }

  lemma {:induction false} ScheduleInv(P: Params, s: Sys)
    requires SysInv(P, s) && s.cur == -1
    ensures SysInv(P, Schedule(P, s))
  {
    if exists j :: Runnable(s.proc, j) {
      ScheduleDispatches(P, s);
      var s' := Schedule(P, s);
      QueueLess(s.proc, s.nextpid, s'.queue, s'.cur, s'.proc[s'.cur]);
    } else {
      ScheduleIdles(P, s);
    }
  }

  /** Every step keeps the invariant. */
  lemma {:induction false} StepInv(P: Params, s: Sys, l: Label)
    requires SysInv(P, s) && Enabled(P, s, l)
    ensures SysInv(P, Apply(P, s, l))
  {
    if l == LSchedule {
      ScheduleInv(P, s);
    } else {
      hide Enabled, Apply, PidsOk, QueueOk, ProcsOk;
      PidsStep(P, s, l);
      QueueStep(P, s, l);
      ProcsStep(P, s, l);
    }
  }

  // ---------------------------------------------------------------- runs

  ghost predicate IsRun(P: Params, ss: seq<Sys>, ls: seq<Label>) {
    && |ss| == |ls| + 1
    && forall k :: 0 <= k < |ls| ==> Enabled(P, ss[k], ls[k]) && ss[k + 1] == Apply(P, ss[k], ls[k])
  }

  /** The table before userinit(): every slot UNUSED and the run queue empty. */
  function Boot(P: Params): Sys {
    Sys(seq(P.nproc, _ => Proc(UNUSED, 0, -1, NoChan, false, 0, 0, 0, false)), [], 0, 1, -1, 0)
  }

  lemma {:induction false} BootInv(P: Params)
    requires P.Ok()
    ensures SysInv(P, Boot(P))
  {
  }

  lemma {:induction false} RunInv(P: Params, ss: seq<Sys>, ls: seq<Label>, k: nat)
    requires IsRun(P, ss, ls) && SysInv(P, ss[0]) && k < |ss|
    ensures SysInv(P, ss[k])
  {
    hide SysInv, Enabled, Apply;
    if k > 0 {
      RunInv(P, ss, ls, k - 1);
      StepInv(P, ss[k - 1], ls[k - 1]);
    }
  }

  /** On every run from boot, whenever scheduler() looks for work: with a RUNNABLE process in the table it
      dispatches one of earliest deadline, with at least one and at most a quantum of ticks to run, and the list
      then holds exactly the other RUNNABLE processes; without one it idles. */
  lemma {:induction false} EveryDispatch(P: Params, ss: seq<Sys>, ls: seq<Label>, k: nat)
    requires P.Ok() && IsRun(P, ss, ls) && ss[0] == Boot(P) && k < |ls| && ls[k] == LSchedule
    ensures var s, s' := ss[k], ss[k + 1];
            if exists j :: Runnable(s.proc, j)
            then Earliest(s.proc, s'.cur) && QueueWithout(s.proc, s'.queue, s'.cur) && 1 <= s'.proc[s'.cur].ticksLeft <= P.quantum
            else s' == s
  {
    BootInv(P);
    RunInv(P, ss, ls, k);
    RunInv(P, ss, ls, k + 1);
    if exists j :: Runnable(ss[k].proc, j) {
      ScheduleDispatches(P, ss[k]);
      hide Earliest, QueueWithout, PidsOk, QueueOk, Schedule;
      assert ProcOk(P, ss[k + 1].proc[ss[k + 1].cur], ss[k + 1].ticks, true);
    } else {
      ScheduleIdles(P, ss[k]);
    }
  }
}
