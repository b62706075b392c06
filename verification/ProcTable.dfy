/** The process table of proc.c as it is updated in place: an array of process
    slots and the skip list.  Each method is one critical section and is proved
    to be the step of module Scheduler that its contract names. */
module ProcTable {
  import opened Counting
  import opened SkipLists
  import opened Scheduler

  ghost predicate ZombieChild(ps: seq<Proc>, c: int, n: int) {
    exists k :: 0 <= k < n && k < |ps| && ps[k].parent == c && ps[k].state == ZOMBIE
  }

  lemma {:induction false} NoZombie(ps: seq<Proc>, c: int)
    ensures !ZombieChild(ps, c, 0)
  {
  }

  lemma {:induction false} NextZombie(ps: seq<Proc>, c: int, i: int)
    requires 0 <= i < |ps|
    ensures ZombieChild(ps, c, i + 1) <==> ZombieChild(ps, c, i) || (ps[i].parent == c && ps[i].state == ZOMBIE)
  {
  }

  function Adopted(p: Proc, c: int, init: int): Proc {
    if p.parent == c then p.(parent := init) else p
  }

  /** What exit() does step by step is what AfterExit says of each slot. */
  lemma {:induction false} ExitEffect(s: seq<Proc>, u: seq<Proc>, v: seq<Proc>, c: int, init: int, k: int)
    requires 0 <= c < |s| && s[c].state == RUNNING && u == WokenAll(s, ProcChan(s[c].parent)) && |v| == |s|
    requires 0 <= k < |s|
    requires v[k] == Adopted(if ZombieChild(u, c, |u|) then Woken(u[k], ProcChan(init)) else u[k], c, init)
    ensures (if k == c then v[k].(state := ZOMBIE) else v[k]) == AfterExit(s, c, init, k)
  {
    assert forall j :: 0 <= j < |s| ==> (u[j].parent == s[j].parent && (u[j].state == ZOMBIE <==> s[j].state == ZOMBIE));
    assert ZombieChild(u, c, |u|) <==> exists j :: 0 <= j < |s| && s[j].parent == c && s[j].state == ZOMBIE;
  }

  lemma {:induction false} CurRuns(P: Params, s: Sys)
    requires SysInv(P, s) && s.cur != -1
    ensures 0 <= s.cur < |s.proc| && s.proc[s.cur].state == RUNNING && 1 <= s.proc[s.cur].ticksLeft <= P.quantum
  {
    assert ProcOk(P, s.proc[s.cur], s.ticks, true);
  }

  lemma {:induction false} PidPositive(P: Params, s: Sys, i: int)
    requires SysInv(P, s) && 0 <= i < |s.proc| && s.proc[i].state != UNUSED
    ensures s.proc[i].pid > 0
  {
  }

  lemma {:induction false} ExitSlot(ps: seq<Proc>, c: int, init: int, k: int)
    requires 0 <= c < |ps| && 0 <= k < |ps| && ps[c].state == RUNNING
    ensures var p := AfterExit(ps, c, init, k);
            && p.parent == (if ps[k].parent == c then init else ps[k].parent) && (k == c ==> p.state == ZOMBIE)
            && (ps[k].state == SLEEPING && ps[k].chan == ProcChan(ps[c].parent) ==> p.state == RUNNABLE)
  {
  }

  class Machine {
    const P: Params
    const proc: array<Proc>
    const sl: SkipList
    var ticks: int
    var nextpid: int
    var cur: int
    var init: int

    ghost predicate Valid()
      reads this, proc, sl, sl.nodeList
    {
      && proc.Length == P.nproc == sl.nproc
      && sl.Valid()
      && SysInv(P, Abs())
    }

    ghost function Abs(): Sys
      requires sl.Valid()
      reads this, proc, sl, sl.nodeList
    {
      Sys(proc[..], sl.Contents(), ticks, nextpid, cur, init)
    }

    /** pinit() and the static zeroes, followed by scheduler()'s call of initSkipList(). */
    constructor (P: Params, levels: nat)
      requires P.Ok() && levels > 0
      ensures Valid() && Abs() == Boot(P) && this.P == P
      ensures ticks == 0 && nextpid == 1 && cur == -1 && sl.Contents() == [] && forall k :: 0 <= k < proc.Length ==> proc[k].state == UNUSED
    {
      this.P := P;
      proc := new Proc[P.nproc](_ => Proc(UNUSED, 0, -1, NoChan, false, 0, 0, 0, false));
      sl := new SkipList(P.nproc, levels);
      ticks, nextpid, cur, init := 0, 1, -1, 0;
      new;
      sl.Init();
      BootInv(P);
      assert Abs() == Boot(P);
    }

    /** slUpLevel: any level below the maximum. */
    method UpLevel() returns (r: int)
      requires sl.levels > 0
      ensures 0 <= r < sl.levels
    {
      r :| 0 <= r < sl.levels;
    }

    /** One turn of that loop. */
    method ScanSlot(p: Proc)
      requires sl.Valid() && sl.nproc == P.nproc
      modifies sl, sl.nodeList
      ensures sl.Valid()
      ensures sl.Contents() == Scanned(P.nproc, p, old(sl.Contents()))
    {
      hide Inv, NodeEntries, Inserted, Removed, FirstAt, Shape;
      sl.Started();
      match p.state {
        case UNUSED =>
        case RUNNABLE =>
          var found, at := sl.Search(p.vdeadline, p.pid);
          if found == 0 {
            var lvl := UpLevel();
            var r, _ := sl.Insert(p.vdeadline, p.pid, lvl);
          }
        case _ =>
          var found, at := sl.Search(p.vdeadline, p.pid);
          if found != 0 {
            var d, _ := sl.Delete(p.vdeadline, p.pid);
          } else {
            RemovedAbsent(sl.Contents(), EntryOf(p));
          }
      }
    }

    /** The loop of scheduler() that brings the list in line with the table. */
    method ScanTable()
      requires Valid()
      modifies sl, sl.nodeList
      ensures sl.Valid()
      ensures sl.Contents() == Populate(P.nproc, proc[..], old(sl.Contents()), 0)
    {
      hide Inv, NodeEntries, Inserted, SysInv, Scanned;
      for i := 0 to proc.Length
        invariant sl.Valid()
        invariant Populate(P.nproc, proc[..], sl.Contents(), i) == Populate(P.nproc, proc[..], old(sl.Contents()), 0)
      {
        ScanSlot(proc[i]);
      }
    }

    /** scheduler()'s search for the slot of a pid: the last one that holds it. */
    method FindSlot(pid: int, dflt: int) returns (r: int)
      ensures r == SlotOf(proc[..], pid, 0, dflt)
    {
      r := dflt;
      for i := 0 to proc.Length
        invariant SlotOf(proc[..], pid, i, r) == SlotOf(proc[..], pid, 0, dflt)
      {
        if proc[i].pid == pid { r := i; }
      }
    }

    /** The first node leaves the list; its pid is read from the node afterwards. */
    method TakeFirst() returns (some: bool, pid: int)
      requires sl.Valid() && sl.nproc == proc.Length
      modifies sl, sl.nodeList
      ensures sl.Valid()
      ensures some <==> old(sl.Contents()) != []
      ensures !some ==> sl.Contents() == []
      ensures some ==> pid == old(sl.Contents())[0].pid && sl.Contents() == Removed(old(sl.Contents()), old(sl.Contents())[0])
    {
      hide Inv, NodeEntries, Removed, Shape;
      sl.Started();
      var first := sl.First();
      some, pid := false, 0;
      // proc.c reads the node before it tests the index; the test comes first here
      if 0 < first < proc.Length + 1 && sl.nodeList[first].valid {
        var _, at := sl.Delete(sl.nodeList[first].value, sl.nodeList[first].pid);
        some, pid := true, sl.nodeList[first].pid;
      }
    }

    /** scheduler() hands the CPU to slot k. */
    method Dispatch(k: int)
      requires 0 <= k < proc.Length
      modifies this`cur, proc
      ensures cur == k && proc[..] == old(proc[..])[k := Dispatched(P.quantum, old(proc[k]))]
    {
      cur := k;
      proc[k] := proc[k].(state := RUNNING);
      if proc[k].ticksLeft <= 0 { proc[k] := proc[k].(ticksLeft := P.quantum); }
    }

    /** scheduler(): one pass of its loop, up to the switch to the chosen process. */
    method SchedulerPass()
      requires Valid() && cur == -1
      modifies this, proc, sl, sl.nodeList
      ensures Valid() && Abs() == Apply(P, old(Abs()), LSchedule)
    {
      hide Inv, NodeEntries, Shape, SysInv, Populate, Removed, SlotOf;
      StepInv(P, Abs(), LSchedule);
      ScheduleSlot(P, Abs());
      ScanTable();
      var some, pid := TakeFirst();
      if some {
        var next := FindSlot(pid, pid - 1);
        Dispatch(next);
      }
    }

    /** yield(), from the system call or from the timer interrupt that took the last tick. */
    method Yield()
      requires 0 <= cur < proc.Length
      modifies this`cur, proc
      ensures cur == -1 && proc[..] == old(proc[..])[old(cur) := Yielded(P, old(proc[cur]), ticks)]
    {
      proc[cur] := proc[cur].(state := RUNNABLE);
      if proc[cur].ticksLeft <= 0 {
        proc[cur] := proc[cur].(vdeadline := ticks + P.offset(proc[cur].niceness));
      }
      cur := -1;
    }

    /** The yield system call. */
    method SysYield()
      requires Valid() && cur != -1
      modifies this`cur, proc
      ensures Valid() && Abs() == Apply(P, old(Abs()), LYield)
      ensures cur == -1 && proc[old(cur)].state == RUNNABLE && forall k :: 0 <= k < proc.Length && k != old(cur) ==> proc[k] == old(proc[k])
    {
      hide SysInv, Inv, Shape, NodeEntries;
      CurRuns(P, Abs());
      StepInv(P, Abs(), LYield);
      Yield();
    }

    /** sleep(): the caller waits on c. */
    method Sleep(c: Chan)
      requires Valid() && cur != -1
      modifies this`cur, proc
      ensures Valid() && Abs() == Apply(P, old(Abs()), LSleep(c))
      ensures cur == -1 && proc[old(cur)].state == SLEEPING && proc[old(cur)].chan == c
      ensures forall k :: 0 <= k < proc.Length && k != old(cur) ==> proc[k] == old(proc[k])
    {
      hide SysInv, Inv, Shape, NodeEntries;
      CurRuns(P, Abs());
      StepInv(P, Abs(), LSleep(c));
      ghost var s := proc[..];
      proc[cur] := proc[cur].(chan := c);
      proc[cur] := proc[cur].(state := SLEEPING);
      assert proc[..] == s[cur := s[cur].(chan := c, state := SLEEPING)];
      cur := -1;
    }

    /** wakeup1(): every process sleeping on c becomes RUNNABLE. */
    method Wakeup1(c: Chan)
      modifies proc
      ensures proc[..] == WokenAll(old(proc[..]), c)
    {
      for i := 0 to proc.Length
        invariant forall k :: 0 <= k < i ==> proc[k] == Woken(old(proc[k]), c)
        invariant forall k :: i <= k < proc.Length ==> proc[k] == old(proc[k])
      {
        if proc[i].state == SLEEPING && proc[i].chan == c {
          proc[i] := proc[i].(state := RUNNABLE);
        }
      }
    }

    method Wakeup(c: Chan)
      requires Valid()
      modifies proc
      ensures Valid() && Abs() == Apply(P, old(Abs()), LWakeup(c))
      ensures forall k :: 0 <= k < proc.Length ==>
        proc[k] == if old(proc[k].state) == SLEEPING && old(proc[k].chan) == c then old(proc[k]).(state := RUNNABLE) else old(proc[k])
    {
      hide SysInv, Inv, Shape, NodeEntries;
      StepInv(P, Abs(), LWakeup(c));
      Wakeup1(c);
    }

    method KillSlot(i: int)
      requires 0 <= i < proc.Length
      modifies proc
      ensures proc[..] == old(proc[..])[i := old(proc[i]).(killed := true,
                            state := if old(proc[i]).state == SLEEPING then RUNNABLE else old(proc[i]).state)]
    {
      proc[i] := proc[i].(killed := true);
      if proc[i].state == SLEEPING { proc[i] := proc[i].(state := RUNNABLE); }
    }

    /** kill(): the first slot with that pid.  Returns 0, or -1 when there is none. */
    method Kill(pid: int) returns (r: int, ghost slot: int)
      requires Valid()
      modifies proc
      ensures Valid() && (r == 0 || r == -1)
      ensures r == -1 ==> Abs() == old(Abs()) && forall k :: 0 <= k < proc.Length ==> proc[k].pid != pid
      ensures r == 0 ==> 0 <= slot < proc.Length && old(proc[slot].pid) == pid && Abs() == Apply(P, old(Abs()), LKill(slot))
      ensures r == 0 ==> forall k :: 0 <= k < slot ==> old(proc[k].pid) != pid
    {
      hide SysInv, Inv, Shape, NodeEntries;
      slot := -1;
      for i := 0 to proc.Length
        invariant Valid() && Abs() == old(Abs()) && proc[..] == old(proc[..])
        invariant forall k :: 0 <= k < i ==> proc[k].pid != pid
      {
        if proc[i].pid == pid {
          StepInv(P, Abs(), LKill(i));
          KillSlot(i);
          return 0, i;
        }
      }
      r := -1;
    }

    /** exit() passes the caller's children to init, waking it for each zombie among them. */
    method Reparent()
      requires 0 <= cur < proc.Length
      modifies proc
      ensures forall k :: 0 <= k < proc.Length ==>
        proc[k] == Adopted(if ZombieChild(old(proc[..]), cur, proc.Length) then Woken(old(proc[k]), ProcChan(init)) else old(proc[k]), cur, init)
    {
      hide ZombieChild;
      ghost var u := proc[..];
      NoZombie(u, cur);
      for i := 0 to proc.Length
        invariant forall k :: 0 <= k < i ==>
          proc[k] == Adopted(if ZombieChild(u, cur, i) then Woken(u[k], ProcChan(init)) else u[k], cur, init)
        invariant forall k :: i <= k < proc.Length ==>
          proc[k] == if ZombieChild(u, cur, i) then Woken(u[k], ProcChan(init)) else u[k]
      {
        if proc[i].parent == cur {
          proc[i] := proc[i].(parent := init);
          if proc[i].state == ZOMBIE { Wakeup1(ProcChan(init)); }
        }
        NextZombie(u, cur, i);
      }
    }

    /** What exit() does to the table under the lock. */
    method ExitSlots()
      requires 0 <= cur < proc.Length && proc[cur].state == RUNNING
      modifies proc
      ensures forall k :: 0 <= k < proc.Length ==> proc[k] == AfterExit(old(proc[..]), cur, init, k)
    {
      hide AfterExit;
      ghost var s := proc[..];
      Wakeup1(ProcChan(proc[cur].parent));
      ghost var u := proc[..];
      Reparent();
      ghost var v := proc[..];
      proc[cur] := proc[cur].(state := ZOMBIE);
      forall k | 0 <= k < proc.Length ensures proc[k] == AfterExit(s, cur, init, k) {
        ExitEffect(s, u, v, cur, init, k);
      }
    }

    /** The part of exit() under the lock.  Returns false where exit() panics: init must not exit. */
    method Exit() returns (ok: bool)
      requires Valid() && cur != -1
      modifies this`cur, proc
      ensures ok <==> old(cur) != init
      ensures Valid() && Abs() == if ok then Apply(P, old(Abs()), LExit) else old(Abs())
      ensures ok ==> cur == -1 && proc[old(cur)].state == ZOMBIE
      ensures ok ==> forall k :: 0 <= k < proc.Length ==> proc[k].parent == if old(proc[k].parent) == old(cur) then init else old(proc[k].parent)
      ensures ok ==> forall k :: 0 <= k < proc.Length && old(proc[k].state) == SLEEPING && old(proc[k].chan) == ProcChan(old(proc[cur].parent)) ==>
        proc[k].state == RUNNABLE
    {
      hide SysInv, Inv, Shape, NodeEntries, AfterExit;
      if cur == init { return false; }
      CurRuns(P, Abs());
      StepInv(P, Abs(), LExit);
      ghost var s := Abs();
      ExitSlots();
      assert proc[..] == Apply(P, s, LExit).proc;
      forall k | 0 <= k < proc.Length ensures
        && proc[k].parent == (if s.proc[k].parent == cur then init else s.proc[k].parent) && (k == cur ==> proc[k].state == ZOMBIE)
        && (s.proc[k].state == SLEEPING && s.proc[k].chan == ProcChan(s.proc[cur].parent) ==> proc[k].state == RUNNABLE)
      {
        ExitSlot(s.proc, cur, init, k);
      }
      cur := -1;
      ok := true;
    }

    /** wait()'s scan of the table: collects one exited child of the caller and returns its pid,
        or 0 when the caller has children but none has exited, or -1 when it has none. */
    method WaitScan() returns (r: int, ghost slot: int)
      requires Valid() && cur != -1
      modifies proc
      ensures Valid()
      ensures r > 0 ==> 0 <= slot < proc.Length && old(proc[slot].parent) == cur && old(proc[slot].pid) == r
      ensures r > 0 ==> Enabled(P, old(Abs()), LReap(slot)) && Abs() == Apply(P, old(Abs()), LReap(slot))
      ensures r <= 0 ==> Abs() == old(Abs()) && forall k :: 0 <= k < proc.Length && proc[k].parent == cur ==> proc[k].state != ZOMBIE
      ensures r == -1 <==> forall k :: 0 <= k < proc.Length ==> old(proc[k].parent) != cur
    {
      hide SysInv, Inv, Shape, NodeEntries;
      slot := -1;
      var havekids := false;
      for i := 0 to proc.Length
        invariant Valid() && Abs() == old(Abs()) && proc[..] == old(proc[..])
        invariant forall k :: 0 <= k < i && proc[k].parent == cur ==> proc[k].state != ZOMBIE
        invariant havekids <==> exists k :: 0 <= k < i && proc[k].parent == cur
      {
        if proc[i].parent != cur { continue; }
        havekids := true;
        if proc[i].state == ZOMBIE {
          r := proc[i].pid;
          PidPositive(P, Abs(), i);
          StepInv(P, Abs(), LReap(i));
          proc[i] := proc[i].(pid := 0, parent := -1, killed := false, state := UNUSED);
          return r, i;
        }
      }
      r := if havekids then 0 else -1;
    }

    /** allocproc() under the lock: the first UNUSED slot, or -1 when there is none. */
    method AllocSlot() returns (r: int)
      requires Valid()
      modifies this`nextpid, proc
      ensures Valid() && -1 <= r < proc.Length
      ensures r == -1 ==> Abs() == old(Abs()) && forall k :: 0 <= k < proc.Length ==> proc[k].state != UNUSED
      ensures r != -1 ==> Enabled(P, old(Abs()), LAlloc(r)) && Abs() == Apply(P, old(Abs()), LAlloc(r))
      ensures r != -1 ==> old(proc[r].state) == UNUSED && forall k :: 0 <= k < r ==> old(proc[k].state) != UNUSED
      ensures r != -1 ==> nextpid == old(nextpid) + 1 && proc[..] == old(proc[..])[r := old(proc[r]).(state := EMBRYO, pid := old(nextpid), dated := false)]
      ensures r == -1 ==> nextpid == old(nextpid) && proc[..] == old(proc[..])
    {
      hide SysInv, Inv, Shape, NodeEntries;
      for i := 0 to proc.Length
        invariant Valid() && Abs() == old(Abs()) && proc[..] == old(proc[..]) && nextpid == old(nextpid)
        invariant forall k :: 0 <= k < i ==> proc[k].state != UNUSED
      {
        if proc[i].state == UNUSED {
          StepInv(P, Abs(), LAlloc(i));
          proc[i] := proc[i].(state := EMBRYO, pid := nextpid, dated := false);
          nextpid := nextpid + 1;
          return i;
        }
      }
      r := -1;
    }

    /** allocproc() and nicefork() set the niceness and the deadline of a new process. */
    method SetNice(i: int, nice: int)
      requires Valid() && 0 <= i < proc.Length && proc[i].state == EMBRYO && NICE_FIRST <= nice <= NICE_LAST
      modifies proc
      ensures Valid() && Abs() == Apply(P, old(Abs()), LDate(i, nice))
      ensures proc[..] == old(proc[..])[i := old(proc[i]).(niceness := nice, vdeadline := ticks + P.offset(nice), dated := true)]
    {
      hide SysInv, Inv, Shape, NodeEntries;
      StepInv(P, Abs(), LDate(i, nice));
      ghost var s := proc[..];
      proc[i] := proc[i].(niceness := nice);
      proc[i] := proc[i].(vdeadline := ticks + P.offset(proc[i].niceness), dated := true);
      assert proc[..] == s[i := s[i].(niceness := nice, vdeadline := ticks + P.offset(nice), dated := true)];
    }

    /** A slot is given back when kalloc() or copyuvm() fails; its pid stays behind. */
    method Abort(i: int)
      requires Valid() && 0 <= i < proc.Length && proc[i].state == EMBRYO
      modifies proc
      ensures Valid() && Abs() == Apply(P, old(Abs()), LAbort(i))
      ensures proc[..] == old(proc[..])[i := old(proc[i]).(state := UNUSED)]
    {
      hide SysInv, Inv, Shape, NodeEntries;
      StepInv(P, Abs(), LAbort(i));
      proc[i] := proc[i].(state := UNUSED);
    }

    /** The end of userinit() and nicefork(). */
    method Publish(i: int, parent: int)
      requires Valid() && 0 <= i < proc.Length && proc[i].state == EMBRYO && proc[i].dated
      modifies proc
      ensures Valid() && Abs() == Apply(P, old(Abs()), LPublish(i, parent))
      ensures proc[..] == old(proc[..])[i := old(proc[i]).(state := RUNNABLE, parent := parent)]
    {
      hide SysInv, Inv, Shape, NodeEntries;
      StepInv(P, Abs(), LPublish(i, parent));
      proc[i] := proc[i].(state := RUNNABLE, parent := parent);
    }

    /** nicefork() run without interruption; kstack and copied say whether kalloc() and copyuvm() succeed.
        Returns the child's pid, or -1; slot is what allocproc() took, or -1.  A slot that is given back keeps the pid. */
    method NiceFork(nice: int, kstack: bool, copied: bool) returns (pid: int, ghost slot: int)
      requires Valid() && cur != -1
      modifies this`nextpid, proc
      ensures Valid()
      ensures slot == -1 <==> nice < NICE_FIRST || nice > NICE_LAST || forall k :: 0 <= k < proc.Length ==> old(proc[k].state) != UNUSED
      ensures slot != -1 ==> 0 <= slot < proc.Length && old(proc[slot].state) == UNUSED
      ensures slot != -1 ==> forall k :: 0 <= k < slot ==> old(proc[k].state) != UNUSED
      ensures pid == -1 <==> slot == -1 || !kstack || !copied
      ensures nextpid == if slot == -1 then old(nextpid) else old(nextpid) + 1
      ensures forall k :: 0 <= k < proc.Length && k != slot ==> proc[k] == old(proc[k])
      ensures pid == -1 && slot != -1 ==> proc[slot].state == UNUSED && proc[slot].pid == old(nextpid)
      ensures pid != -1 ==> pid == old(nextpid)
      ensures pid != -1 ==> proc[slot] == old(proc[slot]).(state := RUNNABLE, pid := pid, parent := cur, niceness := nice,
                                            vdeadline := ticks + P.offset(nice), dated := true)
    {
      hide SysInv, Inv, Shape, NodeEntries, Apply, Enabled;
      if nice < NICE_FIRST || nice > NICE_LAST { return -1, -1; }
      var np := AllocSlot();
      slot := np;
      if np == -1 { return -1, -1; }
      if !kstack { Abort(np); return -1, np; }
      SetNice(np, 0);
      if !copied { Abort(np); return -1, np; }
      SetNice(np, nice);
      PidPositive(P, Abs(), np);
      pid := proc[np].pid;
      Publish(np, cur);
    }

    /** ticks++ and wakeup(&ticks). */
    method ClockTick()
      requires Valid()
      modifies this`ticks, proc
      ensures Valid() && Abs() == Apply(P, old(Abs()), LClock) && ticks == old(ticks) + 1
      ensures forall k :: 0 <= k < proc.Length ==>
        proc[k] == if old(proc[k].state) == SLEEPING && old(proc[k].chan) == TicksChan then old(proc[k]).(state := RUNNABLE) else old(proc[k])
    {
      hide SysInv, Inv, Shape, NodeEntries;
      StepInv(P, Abs(), LClock);
      ticks := ticks + 1;
      Wakeup1(TicksChan);
    }

    /** if (--myproc()->ticks_left == 0) yield(). */
    method Charge()
      requires Valid() && cur != -1
      modifies this`cur, proc
      ensures Valid() && Abs() == Apply(P, old(Abs()), LCharge)
      ensures cur == (if old(proc[cur].ticksLeft) == 1 then -1 else old(cur)) && proc[old(cur)].ticksLeft == old(proc[cur].ticksLeft) - 1
      ensures proc[old(cur)].state == if cur == -1 then RUNNABLE else RUNNING
      ensures forall k :: 0 <= k < proc.Length && k != old(cur) ==> proc[k] == old(proc[k])
    {
      hide SysInv, Inv, Shape, NodeEntries;
      CurRuns(P, Abs());
      StepInv(P, Abs(), LCharge);
      ghost var s := Abs();
      proc[cur] := proc[cur].(ticksLeft := proc[cur].ticksLeft - 1);
      if proc[cur].ticksLeft == 0 {
        Yield();
        assert proc[..] == Apply(P, s, LCharge).proc;
      }
    }

    /** The timer interrupt of trap(): the clock moves and the running process is charged one tick.  A killed
        process that was in user space exits instead.  Returns false where exit() panics. */
    method TimerInterrupt(user: bool) returns (ok: bool)
      requires Valid()
      modifies this`ticks, this`cur, proc
      ensures Valid()
      ensures var t := Apply(P, old(Abs()), LClock);
              if old(cur) == -1 then ok && Abs() == t
              else if old(proc[cur].killed) && user then ok == (old(cur) != init) && (ok ==> Abs() == Apply(P, t, LExit))
              else ok && Abs() == Apply(P, t, LCharge)
      ensures ticks == old(ticks) + 1
      ensures old(cur) != -1 && !(old(proc[cur].killed) && user) ==>
        && cur == (if old(proc[cur].ticksLeft) == 1 then -1 else old(cur))
        && proc[old(cur)].state == (if cur == -1 then RUNNABLE else RUNNING) && proc[old(cur)].ticksLeft == old(proc[cur].ticksLeft) - 1
        && forall k :: 0 <= k < proc.Length && old(proc[k].state) == SLEEPING && old(proc[k].chan) == TicksChan ==> proc[k].state == RUNNABLE
    {
      hide SysInv, Inv, Shape, NodeEntries, Apply;
      if cur != -1 { CurRuns(P, Abs()); }
      ClockTick();
      ok := true;
      if cur != -1 {
        if proc[cur].killed && user { ok := Exit(); return; }
        Charge();
      }
    }
  }
}
