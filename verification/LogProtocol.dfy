/** Group commit in log.c: any number of file system operations, interleaved at
    the granularity of log.lock's critical sections.  log_write() tests for room
    before it takes the lock, so the test and the append are separate steps. */
module LogProtocol {
  import opened Counting

  /** Where an operation stands; `used` counts the entries it has added to the header. */
  datatype Op = Idle | Active(used: nat) | Checked(used: nat, block: int) | Committing

  datatype State = State(lh: seq<int>, outstanding: int, committing: bool, ops: seq<Op>)

  datatype Config = Config(maxop: nat, logsize: nat, size: int)

  datatype Step =
    | Begin(i: int)              // begin_op() gets through
    | Check(i: int, block: int)  // log_write() passes its tests
    | Append(i: int)             // log_write() under the lock
    | End(i: int)                // end_op() under the lock
    | Finish(i: int)             // commit() is over; end_op() takes the lock again

  ghost predicate InOp(o: Op) { o.Active? || o.Checked? }

  /** log_write()'s first panic. */
  ghost predicate TooBig(c: Config, s: State) { |s.lh| >= c.logsize || |s.lh| >= c.size - 1 }

  /** A step needs what the code tests, and log_write() is called only for a block that is in the header already or while
      the operation may still add an entry. */
  ghost predicate Enabled(c: Config, s: State, t: Step) {
    match t
    case Begin(i) => 0 <= i < |s.ops| && s.ops[i] == Idle && !s.committing && |s.lh| + (s.outstanding + 1) * c.maxop <= c.logsize
    case Check(i, b) => 0 <= i < |s.ops| && s.ops[i].Active? && MayLog(c, s, i, b) && !TooBig(c, s) && s.outstanding >= 1
    case Append(i) => 0 <= i < |s.ops| && s.ops[i].Checked?
    case End(i) => 0 <= i < |s.ops| && s.ops[i].Active?
    case Finish(i) => 0 <= i < |s.ops| && s.ops[i] == Committing
  }

  ghost predicate MayLog(c: Config, s: State, i: int, b: int)
    requires 0 <= i < |s.ops| && InOp(s.ops[i])
  {
    s.ops[i].used < c.maxop || b in s.lh
  }

  ghost function Next(c: Config, s: State, t: Step): State
    requires Enabled(c, s, t)
  {
    match t
    case Begin(i) => s.(outstanding := s.outstanding + 1, ops := s.ops[i := Active(0)])
    case Check(i, b) => s.(ops := s.ops[i := Checked(s.ops[i].used, b)])
    case Append(i) =>
      var o := s.ops[i];
      if o.block in s.lh then s.(ops := s.ops[i := Active(o.used)])
      else s.(lh := s.lh + [o.block], ops := s.ops[i := Active(o.used + 1)])
    case End(i) =>
      if s.outstanding == 1 then s.(outstanding := 0, committing := true, ops := s.ops[i := Committing])
      else s.(outstanding := s.outstanding - 1, ops := s.ops[i := Idle])
    case Finish(i) => s.(lh := [], committing := false, ops := s.ops[i := Idle])
  }

  ghost predicate Steps(c: Config, s: State, t: Step, s': State) { Enabled(c, s, t) && s' == Next(c, s, t) }

  ghost predicate Steps2(c: Config, s: State, t: Step, u: Step, s': State) {
    Enabled(c, s, t) && Steps(c, Next(c, s, t), u, s')
  }

  // ---------------------------------------------------------------- invariant

  /** Operations in progress among the first n. */
  ghost function Outstanding(ops: seq<Op>, n: nat): nat
    requires n <= |ops|
  {
    if n == 0 then 0 else Outstanding(ops, n - 1) + if InOp(ops[n - 1]) then 1 else 0
  }

  ghost function Credit(maxop: nat, o: Op): int { if InOp(o) then maxop - o.used else 0 }

  /** Entries the operations in progress may still add. */
  ghost function Credits(maxop: nat, ops: seq<Op>, n: nat): int
    requires n <= |ops|
  {
    if n == 0 then 0 else Credits(maxop, ops, n - 1) + Credit(maxop, ops[n - 1])
  }

  /** Only the last operation to end commits, and nothing is in progress meanwhile.  Between transactions the header is empty. */
  ghost predicate CommitAlone(s: State) {
    && s.outstanding == Outstanding(s.ops, |s.ops|)
    && (s.committing ==> s.outstanding == 0)
    && (s.outstanding == 0 && !s.committing ==> s.lh == [])
    && (s.committing <==> exists i :: 0 <= i < |s.ops| && s.ops[i] == Committing)
    && (forall i, j :: 0 <= i < j < |s.ops| && s.ops[i] == Committing ==> s.ops[j] != Committing)
  }

  ghost predicate WithinCredit(c: Config, s: State) {
    && (forall i :: 0 <= i < |s.ops| && InOp(s.ops[i]) ==> s.ops[i].used <= c.maxop)
    && (forall i :: 0 <= i < |s.ops| && s.ops[i].Checked? ==> MayLog(c, s, i, s.ops[i].block))
  }

  /** What is logged and what may still be logged fits into the header. */
  ghost predicate Reserved(c: Config, s: State) {
    Distinct(s.lh) && |s.lh| + Credits(c.maxop, s.ops, |s.ops|) <= c.logsize
  }

  ghost predicate Inv(c: Config, s: State) {
    CommitAlone(s) && WithinCredit(c, s) && Reserved(c, s)
  }

  lemma {:induction false} OutstandingSet(ops: seq<Op>, i: int, o: Op, n: nat)
    requires n <= |ops| && 0 <= i < |ops|
    ensures Outstanding(ops[i := o], n) ==
            Outstanding(ops, n) + if i < n then (if InOp(o) then 1 else 0) - (if InOp(ops[i]) then 1 else 0) else 0
  {
    if n > 0 { OutstandingSet(ops, i, o, n - 1); }
  }

  lemma {:induction false} CreditsSet(maxop: nat, ops: seq<Op>, i: int, o: Op, n: nat)
    requires n <= |ops| && 0 <= i < |ops|
    ensures Credits(maxop, ops[i := o], n) == Credits(maxop, ops, n) + if i < n then Credit(maxop, o) - Credit(maxop, ops[i]) else 0
  {
    if n > 0 { CreditsSet(maxop, ops, i, o, n - 1); }
  }

  lemma {:induction false} NoneOutstanding(maxop: nat, ops: seq<Op>, n: nat)
    requires n <= |ops| && Outstanding(ops, n) == 0
    ensures Credits(maxop, ops, n) == 0 && forall i :: 0 <= i < n ==> !InOp(ops[i])
  {
    if n > 0 { NoneOutstanding(maxop, ops, n - 1); }
  }

  lemma {:induction false} OutstandingCredits(c: Config, ops: seq<Op>, n: nat)
    requires n <= |ops| && forall i :: 0 <= i < |ops| && InOp(ops[i]) ==> ops[i].used <= c.maxop
    ensures 0 <= Credits(c.maxop, ops, n) <= Outstanding(ops, n) * c.maxop
    ensures forall i :: 0 <= i < n ==> Credit(c.maxop, ops[i]) <= Credits(c.maxop, ops, n)
  {
    if n > 0 {
      OutstandingCredits(c, ops, n - 1);
      assert (Outstanding(ops, n - 1) + 1) * c.maxop == Outstanding(ops, n - 1) * c.maxop + c.maxop;
    }
  }

  lemma {:induction false} SomeOutstanding(ops: seq<Op>, i: int, n: nat)
    requires 0 <= i < n <= |ops| && InOp(ops[i])
    ensures Outstanding(ops, n) >= 1
  {
    if i < n - 1 { SomeOutstanding(ops, i, n - 1); }
  }

  lemma {:induction false} StepAlone(c: Config, s: State, t: Step)
    requires CommitAlone(s) && Enabled(c, s, t)
    ensures CommitAlone(Next(c, s, t))
  {
    var s' := Next(c, s, t);
    OutstandingSet(s.ops, t.i, s'.ops[t.i], |s.ops|);
    assert forall k :: 0 <= k < |s.ops| && k != t.i ==> s'.ops[k] == s.ops[k];
    if InOp(s.ops[t.i]) { SomeOutstanding(s.ops, t.i, |s.ops|); }
    if t.Finish? {
      assert s.committing;
    }
  }

  lemma {:induction false} StepWithin(c: Config, s: State, t: Step)
    requires CommitAlone(s) && WithinCredit(c, s) && Enabled(c, s, t)
    ensures WithinCredit(c, Next(c, s, t))
  {
    var s' := Next(c, s, t);
    if t.Finish? {
      assert s.committing;
      NoneOutstanding(c.maxop, s.ops, |s.ops|);
    }
    hide CommitAlone;
    assert forall k :: 0 <= k < |s.ops| && k != t.i ==> s'.ops[k] == s.ops[k];
    assert !t.Finish? ==> forall b :: b in s.lh ==> b in s'.lh;
  }

  lemma {:induction false} StepReserved(c: Config, s: State, t: Step)
    requires Inv(c, s) && Enabled(c, s, t)
    ensures Reserved(c, Next(c, s, t))
  {
    var s' := Next(c, s, t);
    CreditsSet(c.maxop, s.ops, t.i, s'.ops[t.i], |s.ops|);
    OutstandingCredits(c, s.ops, |s.ops|);
    if t.Finish? { NoneOutstanding(c.maxop, s.ops, |s.ops|); }
  }

  /** Every step of every interleaving keeps the invariant. */
  lemma {:induction false} StepInv(c: Config, s: State, t: Step)
    requires Inv(c, s) && Enabled(c, s, t)
    ensures Inv(c, Next(c, s, t))
  {
    StepAlone(c, s, t);
    StepWithin(c, s, t);
    StepReserved(c, s, t);
  }

  // ---------------------------------------------------------------- runs

  ghost predicate IsRun(c: Config, ss: seq<State>, ts: seq<Step>) {
    && |ss| == |ts| + 1
    && forall k :: 0 <= k < |ts| ==> Enabled(c, ss[k], ts[k]) && ss[k + 1] == Next(c, ss[k], ts[k])
  }

  ghost predicate Initial(s: State) {
    s.lh == [] && s.outstanding == 0 && !s.committing && forall i :: 0 <= i < |s.ops| ==> s.ops[i] == Idle
  }

  lemma {:induction false} InitialInv(c: Config, s: State, n: nat)
    requires Initial(s) && n <= |s.ops|
    ensures Outstanding(s.ops, n) == 0 && (n == |s.ops| ==> Inv(c, s))
  {
    if n > 0 { InitialInv(c, s, n - 1); }
    NoneOutstanding(c.maxop, s.ops, n);
  }

  lemma {:induction false} RunInv(c: Config, ss: seq<State>, ts: seq<Step>, k: nat)
    requires IsRun(c, ss, ts) && Initial(ss[0]) && k < |ss|
    ensures Inv(c, ss[k])
  {
    hide Inv, Enabled, Next;
    if k == 0 {
      InitialInv(c, ss[0], |ss[0].ops|);
    } else {
      RunInv(c, ss, ts, k - 1);
      StepInv(c, ss[k - 1], ts[k - 1]);
    }
  }

  /** While one operation commits, no other step changes the header, and none can start or log. */
  lemma {:induction false} CommitIsolated(c: Config, ss: seq<State>, ts: seq<Step>, k: nat)
    requires IsRun(c, ss, ts) && Initial(ss[0]) && k < |ts| && ss[k].committing
    ensures ss[k].outstanding == 0 && ts[k].Finish? && forall i :: 0 <= i < |ss[k].ops| ==> !InOp(ss[k].ops[i])
  {
    RunInv(c, ss, ts, k);
    NoneOutstanding(c.maxop, ss[k].ops, |ss[k].ops|);
  }

  /** On every run, an operation that may still add an entry finds room for it in the header; so log_write()'s test fires
      only if the log on disk is too short, and the append after the test stays within the header. */
  lemma {:induction false} RoomToLog(c: Config, ss: seq<State>, ts: seq<Step>, k: nat, i: int)
    requires IsRun(c, ss, ts) && Initial(ss[0]) && k < |ss| && 0 <= i < |ss[k].ops|
    requires InOp(ss[k].ops[i]) && ss[k].ops[i].used < c.maxop
    ensures |ss[k].lh| < c.logsize && Distinct(ss[k].lh)
    ensures c.size - 1 >= c.logsize ==> !TooBig(c, ss[k])
  {
    RunInv(c, ss, ts, k);
    OutstandingCredits(c, ss[k].ops, |ss[k].ops|);
  }

  // ---------------------------------------------------------------- when the test does fire

  /** On every run of n operations, an operation that may still add an entry passes log_write()'s test. */
  ghost predicate TestNeverFires(c: Config, n: nat) {
    forall ss, ts, s, i :: Reached(c, n, ss, ts, s) && Pending(c, s, i) ==> !TooBig(c, s)
  }

  ghost predicate Pending(c: Config, s: State, i: int) {
    0 <= i < |s.ops| && s.ops[i].Active? && s.ops[i].used < c.maxop
  }

  ghost predicate Reached(c: Config, n: nat, ss: seq<State>, ts: seq<Step>, s: State) {
    IsRun(c, ss, ts) && Initial(ss[0]) && |ss[0].ops| == n && ss[|ss| - 1] == s
  }

  lemma {:induction false} Extend(c: Config, n: nat, ss: seq<State>, ts: seq<Step>, s: State, t: Step)
    requires Reached(c, n, ss, ts, s) && Enabled(c, s, t)
    ensures Reached(c, n, ss + [Next(c, s, t)], ts + [t], Next(c, s, t))
  {
    hide Enabled, Next;
  }

  ghost function Upto(k: nat): seq<int> { seq(k, i => i) }

  ghost function Sum(us: seq<nat>): nat { if us == [] then 0 else us[0] + Sum(us[1..]) }

  lemma {:induction false} SumSet(us: seq<nat>, i: nat, u: nat)
    requires i < |us|
    ensures Sum(us[i := u]) == Sum(us) - us[i] + u
  {
    if i == 0 {
      assert us[0 := u][1..] == us[1..];
    } else {
      SumSet(us[1..], i - 1, u);
      assert us[i := u][1..] == us[1..][i - 1 := u];
    }
  }

  /** Shares of at most m have a sum of at most |us| * m, and less if one of them is less. */
  lemma {:induction false} SumBound(us: seq<nat>, m: nat, i: nat)
    requires i < |us| && forall j :: 0 <= j < |us| ==> us[j] <= m
    ensures Sum(us) <= |us| * m && (us[i] < m ==> Sum(us) < |us| * m)
  {
    assert |us| * m == (|us| - 1) * m + m;
    if |us| > 1 { SumBound(us[1..], m, if i == 0 then 0 else i - 1); }
  }

  /** k entries spread over q operations, the first ones filled up. */
  ghost function Spread(m: nat, q: nat, k: nat): (us: seq<nat>)
    requires k <= q * m
    ensures |us| == q && Sum(us) == k && forall j :: 0 <= j < q ==> us[j] <= m
  {
    if q == 0 then []
    else
      var u := if k < m then k else m;
      assert q * m == (q - 1) * m + m;
      assert (q - 1) * m >= 0;
      [u] + Spread(m, q - 1, k - u)
  }

  /** One operation for each share has begun and logged that many blocks; none has ended but the first a. */
  ghost function Filled(n: nat, us: seq<nat>, a: nat): State
    requires a <= |us| <= n
  {
    State(Upto(Sum(us)), |us| - a, false, seq(n, i requires 0 <= i < n => if a <= i < |us| then Active(us[i]) else Idle))
  }

  lemma {:induction false} Multiples(a: nat, b: nat, m: nat)
    requires a <= b
    ensures a * m <= b * m
    decreases b
  {
    if a < b { Multiples(a, b - 1, m); assert b * m == (b - 1) * m + m; }
  }

  ghost function Zeros(q: nat): (us: seq<nat>)
    ensures |us| == q && Sum(us) == 0 && forall j :: 0 <= j < q ==> us[j] == 0
  {
    if q == 0 then [] else [0] + Zeros(q - 1)
  }

  lemma {:induction false} BeginNext(c: Config, q: nat, n: nat, a: nat)
    requires c.logsize == q * c.maxop && a < q <= n
    ensures Steps(c, Filled(n, Zeros(a), 0), Begin(a), Filled(n, Zeros(a + 1), 0))
  {
    Multiples(a + 1, q, c.maxop);
    assert Next(c, Filled(n, Zeros(a), 0), Begin(a)) == Filled(n, Zeros(a + 1), 0);
  }

  lemma {:induction false} ReachBegun(c: Config, q: nat, n: nat, a: nat) returns (ss: seq<State>, ts: seq<Step>)
    requires c.logsize == q * c.maxop && a <= q <= n
    ensures Reached(c, n, ss, ts, Filled(n, Zeros(a), 0))
  {
    if a == 0 {
      ss, ts := [Filled(n, Zeros(0), 0)], [];
    } else {
      ss, ts := ReachBegun(c, q, n, a - 1);
      BeginNext(c, q, n, a - 1);
      Extend(c, n, ss, ts, Filled(n, Zeros(a - 1), 0), Begin(a - 1));
      ss, ts := ss + [Filled(n, Zeros(a), 0)], ts + [Begin(a - 1)];
    }
  }

  /** Operation i logs one block more. */
  lemma {:induction false} LogNext(c: Config, n: nat, us: seq<nat>, i: nat)
    requires |us| <= n && i < |us| && us[i] < c.maxop && Sum(us) < c.logsize && Sum(us) < c.size - 1
    ensures var s, k := Filled(n, us, 0), Sum(us);
            Steps2(c, s, Check(i, k), Append(i), Filled(n, us[i := us[i] + 1], 0))
  {
    var s, k := Filled(n, us, 0), Sum(us);
    SumSet(us, i, us[i] + 1);
    var s2 := Next(c, Next(c, s, Check(i, k)), Append(i));
    assert Upto(k) + [k] == Upto(k + 1);
    assert s2.ops == Filled(n, us[i := us[i] + 1], 0).ops;
  }

  lemma {:induction false} PositiveShare(us: seq<nat>) returns (i: nat)
    requires Sum(us) > 0
    ensures i < |us| && us[i] > 0
  {
    if us[0] > 0 { i := 0; } else { i := PositiveShare(us[1..]); i := i + 1; }
  }

  lemma {:induction false} AllZero(us: seq<nat>)
    requires Sum(us) == 0
    ensures us == Zeros(|us|)
  {
    if us != [] { AllZero(us[1..]); }
  }

  /** Any shares within the credits can be logged. */
  lemma {:induction false} ReachFilled(c: Config, n: nat, us: seq<nat>) returns (ss: seq<State>, ts: seq<Step>)
    requires c.logsize == |us| * c.maxop && |us| <= n && Sum(us) <= c.size - 1 && forall j :: 0 <= j < |us| ==> us[j] <= c.maxop
    ensures Reached(c, n, ss, ts, Filled(n, us, 0))
    decreases Sum(us)
  {
    if Sum(us) == 0 {
      AllZero(us);
      ss, ts := ReachBegun(c, |us|, n, |us|);
    } else {
      var i := PositiveShare(us);
      var vs := us[i := us[i] - 1];
      SumSet(us, i, us[i] - 1);
      SumBound(vs, c.maxop, i);
      ss, ts := ReachFilled(c, n, vs);
      var k := Sum(vs);
      LogNext(c, n, vs, i);
      assert vs[i := vs[i] + 1] == us;
      ss, ts := Extend2(c, n, ss, ts, Filled(n, vs, 0), Check(i, k), Append(i));
    }
  }

  lemma {:induction false} Extend2(c: Config, n: nat, ss: seq<State>, ts: seq<Step>, s: State, t: Step, u: Step)
    returns (ss': seq<State>, ts': seq<Step>)
    requires Reached(c, n, ss, ts, s) && Enabled(c, s, t) && Enabled(c, Next(c, s, t), u)
    ensures Reached(c, n, ss', ts', Next(c, Next(c, s, t), u))
  {
    hide Enabled, Next, Reached;
    Extend(c, n, ss, ts, s, t);
    Extend(c, n, ss + [Next(c, s, t)], ts + [t], Next(c, s, t), u);
    ss', ts' := ss + [Next(c, s, t)] + [Next(c, Next(c, s, t), u)], ts + [t] + [u];
  }

  lemma {:induction false} LessShare(us: seq<nat>, m: nat) returns (i: nat)
    requires Sum(us) < |us| * m
    ensures i < |us| && us[i] < m
  {
    assert |us| * m == (|us| - 1) * m + m;
    if us[0] < m { i := 0; } else { i := LessShare(us[1..], m); i := i + 1; }
  }

  /** log_write()'s test never fires for an operation within its credit exactly when the log on disk holds a header and
      LOGSIZE blocks.  mkfs makes the whole log LOGSIZE blocks long, one too few. */
  lemma {:induction false} TestFiresIffLogShort(c: Config, q: nat, n: nat)
    requires c.logsize == q * c.maxop && 0 < c.maxop && q <= n && 1 <= c.size
    ensures TestNeverFires(c, n) <==> c.size - 1 >= c.logsize
  {
    if c.size - 1 >= c.logsize {
      forall ss, ts, s, i | Reached(c, n, ss, ts, s) && Pending(c, s, i) ensures !TooBig(c, s) {
        RoomToLog(c, ss, ts, |ss| - 1, i);
      }
    } else {
      var us := Spread(c.maxop, q, c.size - 1);
      var ss, ts := ReachFilled(c, n, us);
      var i := LessShare(us, c.maxop);
      assert Pending(c, Filled(n, us, 0), i) && TooBig(c, Filled(n, us, 0));
    }
  }

  /** On every run of n operations, logging a block again that is in the header passes log_write()'s test. */
  ghost predicate RewriteNeverFires(c: Config, n: nat) {
    forall ss, ts, s, i, b :: Reached(c, n, ss, ts, s) && 0 <= i < |s.ops| && s.ops[i].Active? && b in s.lh ==> !TooBig(c, s)
  }

  /** The test comes before the search for the block, so a full header stops an operation that would add no entry.  No length
      of the log avoids this, unless nothing can be logged. */
  lemma {:induction false} RewriteFires(c: Config, q: nat, n: nat)
    requires c.logsize == q * c.maxop && 0 < c.maxop && 0 < q <= n && 1 <= c.size
    ensures RewriteNeverFires(c, n) <==> c.size == 1
  {
    if c.size == 1 {
      forall ss, ts, s | Reached(c, n, ss, ts, s) ensures s.lh == [] { NothingLogged(c, ss, ts, |ss| - 1); }
    } else {
      assert q * c.maxop == (q - 1) * c.maxop + c.maxop && (q - 1) * c.maxop >= 0;
      var us := Spread(c.maxop, q, if c.size - 1 < c.logsize then c.size - 1 else c.logsize);
      var ss, ts := ReachFilled(c, n, us);
      var s := Filled(n, us, 0);
      assert s.lh[0] == 0;
      assert Reached(c, n, ss, ts, s) && s.ops[0].Active? && 0 in s.lh && TooBig(c, s);
    }
  }

  // ---------------------------------------------------------------- the header against the log on disk

  /** On every run of n operations the entries fit into the log on disk, behind its header block. */
  ghost predicate NeverOutgrows(c: Config, n: nat) {
    forall ss, ts, s :: Reached(c, n, ss, ts, s) ==> |s.lh| <= c.size - 1
  }

  /** k entries spread so that the first two operations may each add one more. */
  ghost function TwoShort(m: nat, q: nat, k: nat): (us: seq<nat>)
    requires 2 <= q && 0 < m && k + 2 <= q * m
    ensures |us| == q && Sum(us) == k && us[0] < m && us[1] < m && forall j :: 0 <= j < q ==> us[j] <= m
  {
    var rest := (q - 2) * m;
    assert q * m == rest + 2 * m;
    assert rest >= 0;
    var k0 := if k < rest then k else rest;
    var r := k - k0;
    var u := if r < m then r else m - 1;
    var us: seq<nat> := [u, r - u] + Spread(m, q - 2, k0);
    assert us[1..][1..] == Spread(m, q - 2, k0);
    us
  }

  /** Two operations pass the test before either appends: the header ends up two entries longer. */
  lemma {:induction false} Overtaken(c: Config, n: nat, us: seq<nat>) returns (ss: seq<State>, ts: seq<Step>, s: State)
    requires c.logsize == |us| * c.maxop && 2 <= |us| <= n && Sum(us) == c.size - 2 && Sum(us) < c.logsize
    requires us[0] < c.maxop && us[1] < c.maxop && forall j :: 0 <= j < |us| ==> us[j] <= c.maxop
    ensures Reached(c, n, ss, ts, s) && |s.lh| == c.size
  {
    ss, ts := ReachFilled(c, n, us);
    var k, s0 := Sum(us), Filled(n, us, 0);
    var s1 := Next(c, s0, Check(0, k));
    var s2 := Next(c, s1, Check(1, k + 1));
    ss, ts := Extend2(c, n, ss, ts, s0, Check(0, k), Check(1, k + 1));
    var s3 := Next(c, s2, Append(0));
    s := Next(c, s3, Append(1));
    ss, ts := Extend2(c, n, ss, ts, s2, Append(0), Append(1));
  }

  /** log_write() tests for room before it takes the lock.  So the entries stay within the log on disk exactly when the log
      holds a header and LOGSIZE blocks, where the credits alone keep them there (or has no block at all for entries). */
  lemma {:induction false} OutgrowsIffLogShort(c: Config, q: nat, n: nat)
    requires c.logsize == q * c.maxop && 0 < c.maxop && 2 <= q <= n && 1 <= c.size
    ensures NeverOutgrows(c, n) <==> c.size - 1 >= c.logsize || c.size == 1
  {
    if c.size - 1 >= c.logsize || c.size == 1 {
      forall ss, ts, s | Reached(c, n, ss, ts, s) ensures |s.lh| <= c.size - 1 {
        RunInv(c, ss, ts, |ss| - 1);
        OutstandingCredits(c, s.ops, |s.ops|);
        if c.size == 1 { NothingLogged(c, ss, ts, |ss| - 1); }
      }
    } else {
      var ss, ts, s := Overtaken(c, n, TwoShort(c.maxop, q, c.size - 2));
      assert Reached(c, n, ss, ts, s) && |s.lh| > c.size - 1;
    }
  }

  lemma {:induction false} NothingLogged(c: Config, ss: seq<State>, ts: seq<Step>, k: nat)
    requires IsRun(c, ss, ts) && Initial(ss[0]) && k < |ss| && c.size == 1
    ensures ss[k].lh == [] && forall i :: 0 <= i < |ss[k].ops| ==> !ss[k].ops[i].Checked?
  {
    if k > 0 { NothingLogged(c, ss, ts, k - 1); }
  }

  // ---------------------------------------------------------------- the header against the buffer cache

  /** On every run of n operations a commit starts with fewer logged blocks than there are buffers, so that it has one for
      the log. */
  ghost predicate CommitHasBuffer(c: Config, n: nat, nbuf: nat) {
    forall ss, ts, s :: Reached(c, n, ss, ts, s) && s.committing ==> |s.lh| < nbuf
  }

  lemma {:induction false} EndNext(c: Config, n: nat, us: seq<nat>, a: nat)
    requires a + 1 < |us| <= n
    ensures Steps(c, Filled(n, us, a), End(a), Filled(n, us, a + 1))
  {
    assert Next(c, Filled(n, us, a), End(a)) == Filled(n, us, a + 1);
  }

  lemma {:induction false} ReachEnded(c: Config, n: nat, us: seq<nat>, a: nat) returns (ss: seq<State>, ts: seq<Step>)
    requires c.logsize == |us| * c.maxop && a < |us| <= n && Sum(us) <= c.size - 1 && forall j :: 0 <= j < |us| ==> us[j] <= c.maxop
    ensures Reached(c, n, ss, ts, Filled(n, us, a))
  {
    if a == 0 {
      ss, ts := ReachFilled(c, n, us);
    } else {
      ss, ts := ReachEnded(c, n, us, a - 1);
      EndNext(c, n, us, a - 1);
      Extend(c, n, ss, ts, Filled(n, us, a - 1), End(a - 1));
      ss, ts := ss + [Filled(n, us, a)], ts + [End(a - 1)];
    }
  }

  /** With a log of full length, a commit always finds a buffer exactly when there are more than LOGSIZE of them. */
  lemma {:induction false} CommitHasBufferIff(c: Config, q: nat, n: nat, nbuf: nat)
    requires c.logsize == q * c.maxop && 0 < q <= n && c.size - 1 >= c.logsize
    ensures CommitHasBuffer(c, n, nbuf) <==> c.logsize < nbuf
  {
    if c.logsize < nbuf {
      forall ss, ts, s | Reached(c, n, ss, ts, s) && s.committing ensures |s.lh| < nbuf {
        RunInv(c, ss, ts, |ss| - 1);
        OutstandingCredits(c, s.ops, |s.ops|);
      }
    } else {
      var us := Spread(c.maxop, q, c.logsize);
      var ss, ts := ReachEnded(c, n, us, q - 1);
      var s := Filled(n, us, q - 1);
      Extend(c, n, ss, ts, s, End(q - 1));
      var s' := Next(c, s, End(q - 1));
      assert Reached(c, n, ss + [s'], ts + [End(q - 1)], s') && s'.committing && |s'.lh| >= nbuf;
    }
  }

  /** Neither panic can happen exactly when the log holds a header and LOGSIZE blocks and the cache more than LOGSIZE
      buffers.  With as many buffers as LOGSIZE no length of the log avoids both. */
  lemma {:induction false} SafeSizes(c: Config, q: nat, n: nat, nbuf: nat)
    requires c.logsize == q * c.maxop && 0 < c.maxop && 0 < q <= n && 1 <= c.size
    ensures TestNeverFires(c, n) && CommitHasBuffer(c, n, nbuf) <==> c.size - 1 >= c.logsize && c.logsize < nbuf
  {
    TestFiresIffLogShort(c, q, n);
    if c.size - 1 >= c.logsize { CommitHasBufferIff(c, q, n, nbuf); }
  }
}
