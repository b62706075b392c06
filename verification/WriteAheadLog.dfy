/** log.c over the buffer cache of bio.c: logging a block, committing a
    transaction and recovering after a crash.  The cache records the disk after
    each write in `trace`, so a contract speaks of every point at which the
    machine could have stopped. */
module WriteAheadLog {
  import opened Counting
  import opened BufferCache
  import opened LogFormat
  import P = LogProtocol

  lemma {:induction false} TwoLessOne(s: set<int>, x: int)
    ensures |s| >= 2 ==> s - {x} != {}
  {
    if s - {x} == {} { SubsetCard(s, {x}); }
  }

  /** What the cache holds in the logged blocks. */
  ghost function Data(v: seq<Block>, bl: seq<int>): (r: seq<Block>)
    requires forall i :: 0 <= i < |bl| ==> 0 <= bl[i] < |v|
    ensures |r| == |bl|
  {
    seq(|bl|, i requires 0 <= i < |bl| => v[bl[i]])
  }

  ghost predicate AllIn(bl: seq<int>, s: set<int>) { forall i :: 0 <= i < |bl| ==> bl[i] in s }

  lemma {:induction false} CommitTraceEmpty(L: Layout, d: Disk, bl: seq<int>, data: seq<Block>)
    requires Transaction(L, d, bl, data)
    ensures CommitTrace(L, d, bl, data, 0) == []
  {
  }

  lemma {:induction false} CommitTraceLog(L: Layout, d: Disk, bl: seq<int>, data: seq<Block>, t: nat)
    requires Transaction(L, d, bl, data) && 0 < t <= |bl|
    ensures CommitTrace(L, d, bl, data, t) == CommitTrace(L, d, bl, data, t - 1) + [Logged(L, d, data, t)]
  {
  }

  ghost function Elems(bl: seq<int>): set<int> { set b | b in bl }

  lemma {:induction false} ElemsGrow(bl: seq<int>, k: nat)
    requires k < |bl|
    ensures Elems(bl[..k + 1]) == Elems(bl[..k]) + {bl[k]} && Elems(bl[..0]) == {}
  {
    assert bl[..k + 1] == bl[..k] + [bl[k]];
  }

  lemma {:induction false} InstallTraceGrows(L: Layout, d: Disk, bl: seq<int>, k: nat)
    requires Fits(L, d) && HomesOk(L, |d|, bl) && k < |bl|
    ensures InstallTrace(L, d, bl, k + 1) == InstallTrace(L, d, bl, k) + [Installed(L, d, bl, k + 1)]
    ensures Installed(L, d, bl, k + 1) == Installed(L, d, bl, k)[bl[k] := d[L.start + 1 + k]]
    ensures Installed(L, d, bl, k)[L.start + 1 + k] == d[L.start + 1 + k]
  {
    assert InLog(L, L.start + 1 + k);
  }

  lemma {:induction false} InstallNone(L: Layout, d: Disk, bl: seq<int>)
    requires Fits(L, d) && HomesOk(L, |d|, bl)
    ensures InstallTrace(L, d, bl, 0) == [] && Installed(L, d, bl, 0) == d && Elems(bl[..0]) == {}
  {
  }

  lemma {:induction false} StillDirty(bl: seq<int>, k: nat, s: set<int>)
    requires k < |bl|
    ensures AllIn(bl, s) && Distinct(bl) ==> bl[k] in s - Elems(bl[..k])
  {
  }

  lemma {:induction false} FreeMore(s: set<int>, t: set<int>)
    ensures s <= t ==> |s| <= |t| && (s != {} ==> t != {})
  {
    if s <= t { SubsetCard(s, t); }
  }

  /** A turn of write_log() or install_trans() gives back what it took: log block l in buffer lb, and home block h in buffer hb,
      which nobody else uses if `one`. */
  lemma {:induction false} TurnBack(r: set<int>, k: set<int>, f: set<int>, l: int, h: int, lb: int, hb: int, one: bool)
    requires l != h && l !in r && l !in k && h !in k && lb in f && (one <==> h !in r) && (hb in f ==> one)
    ensures r + {l} + {h} - {l} - (if one then {h} else {}) == r && r + {l} + {h} - (if one then {h} else {}) - {l} == r
    ensures k + {l} + {h} - {l} - {h} == k && k + {l} + {h} - {h} - {l} == k
    ensures f - {lb} - {hb} + (if one then {hb} else {}) + {lb} >= f
    ensures hb !in f ==> f - {lb} - {hb} + {lb} + {} == f
  {
  }

  lemma {:induction false} LoggedNext(L: Layout, d: Disk, data: seq<Block>, k: nat)
    requires Fits(L, d) && |data| < L.size && k < |data|
    ensures Logged(L, d, data, k + 1) == Logged(L, d, data, k)[L.start + k + 1 := data[k]]
  {
  }

  lemma {:induction false} LoggedNone(L: Layout, d: Disk, data: seq<Block>, v: Disk)
    requires Fits(L, d) && |data| < L.size
    ensures Logged(L, d, data, 0) == d && SameHome(L, v, v)
  {
  }

  lemma {:induction false} HomesKept(L: Layout, d: Disk, e: Disk, l: int, x: Block, h: int)
    requires SameHome(L, d, e) && 0 <= l < |d| && InLog(L, l) && 0 <= h < |d| && !InLog(L, h)
    ensures SameHome(L, d[l := x], e) && d[h] == e[h]
  {
  }

  /** commit()'s header write and its last write, in terms of its trace. */
  lemma {:induction false} CommitHeads(L: Layout, d: Disk, bl: seq<int>, data: seq<Block>)
    requires Transaction(L, d, bl, data)
    ensures CommitState(L, d, bl, data, |bl|) == Logged(L, d, data, |bl|)
    ensures CommitState(L, d, bl, data, |bl| + 1) == Headed(L, Logged(L, d, data, |bl|), bl) == Committed(L, d, bl, data)
    ensures CommitTrace(L, d, bl, data, |bl| + 1) == CommitTrace(L, d, bl, data, |bl|) + [Committed(L, d, bl, data)]
    ensures Fits(L, Committed(L, d, bl, data)) && |Committed(L, d, bl, data)| == |d|
  {
  }

  lemma {:induction false} CommitClears(L: Layout, d: Disk, bl: seq<int>, data: seq<Block>)
    requires Transaction(L, d, bl, data) && Fits(L, Committed(L, d, bl, data)) && |Committed(L, d, bl, data)| == |d|
    ensures var e := Installed(L, Committed(L, d, bl, data), bl, |bl|);
            && Fits(L, e) && CommitState(L, d, bl, data, 2 * |bl| + 2) == Headed(L, e, [])
            && CommitTrace(L, d, bl, data, 2 * |bl| + 2) == CommitTrace(L, d, bl, data, 2 * |bl| + 1) + [Headed(L, e, [])]
  {
    var e := Installed(L, Committed(L, d, bl, data), bl, |bl|);
    assert InLog(L, L.start);
    ClearedIsHeaded(L, e);
  }

  lemma {:induction false} CommitLogs(L: Layout, d: Disk, bl: seq<int>, data: seq<Block>, t: nat)
    requires Transaction(L, d, bl, data) && t <= |bl|
    ensures CommitState(L, d, bl, data, t) == Logged(L, d, data, t)
  {
  }

  lemma {:induction false} NoElems()
    ensures Elems([]) == {}
  {
  }

  lemma {:induction false} AppliedIsView(L: Layout, d: Disk, v: seq<Block>, bl: seq<int>)
    requires |d| == |v| && forall i :: 0 <= i < |bl| ==> 0 <= bl[i] < |v|
    requires forall b :: 0 <= b < |d| && b !in Elems(bl) ==> d[b] == v[b]
    ensures Applied(d, bl, Data(v, bl), |bl|) == v
  {
    forall b | 0 <= b < |d| ensures Applied(d, bl, Data(v, bl), |bl|)[b] == v[b] {
      AppliedAt(d, bl, Data(v, bl), |bl|, b);
      LastEntryFinds(bl, |bl|, b);
    }
  }

  lemma {:induction false} LastEntryFinds(bl: seq<int>, k: nat, b: int)
    requires k <= |bl|
    ensures var j := LastEntry(bl, k, b); if j == -1 then b !in bl[..k] else bl[j] == b
  {
    if k > 0 {
      LastEntryFinds(bl, k - 1, b);
      assert bl[..k] == bl[..k - 1] + [bl[k - 1]];
    }
    assert bl[..|bl|] == bl;
  }

  /** A finished commit leaves the home blocks as the file system saw them before it. */
  lemma {:induction false} CommitDurable(L: Layout, d: Disk, v: seq<Block>, bl: seq<int>)
    requires |d| == |v| && Fits(L, d) && HomesOk(L, |d|, bl)
    requires forall b :: 0 <= b < |d| && b !in Elems(bl) ==> d[b] == v[b]
    ensures SameHome(L, CommitState(L, d, bl, Data(v, bl), 2 * |bl| + 2), v)
    ensures Count(L, CommitState(L, d, bl, Data(v, bl), 2 * |bl| + 2)) == 0
  {
    var data := Data(v, bl);
    CommittedRecoverable(L, d, bl, data);
    CommittedApplies(L, d, bl, data);
    AppliedIsView(L, d, v, bl);
    assert CommitState(L, d, bl, data, 2 * |bl| + 2) == Recovered(L, Committed(L, d, bl, data));
  }

  lemma {:induction false} RecoverReady(L: Layout, d: Disk)
    requires Recoverable(L, d)
    ensures Fits(L, d) && HomesOk(L, |d|, Entries(L, d)) && InLog(L, L.start)
    ensures RecoveryState(L, d, d)
  {
    assert Installed(L, d, Entries(L, d), 0) == d;
  }

  /** Every disk on the way of a recovery is a RecoveryState, and the last write gives Recovered. */
  lemma {:induction false} RecoverStates(L: Layout, d: Disk, k: nat)
    requires Recoverable(L, d) && Fits(L, d) && HomesOk(L, |d|, Entries(L, d)) && k <= |Entries(L, d)|
    ensures RecoveryState(L, d, Installed(L, d, Entries(L, d), k)) && Fits(L, Installed(L, d, Entries(L, d), k))
    ensures forall i :: 0 <= i < |InstallTrace(L, d, Entries(L, d), k)| ==> RecoveryState(L, d, InstallTrace(L, d, Entries(L, d), k)[i])
    ensures k == |Entries(L, d)| ==> Headed(L, Installed(L, d, Entries(L, d), k), []) == Recovered(L, d) && RecoveryState(L, d, Recovered(L, d))
  {
    var bl := Entries(L, d);
    assert InLog(L, L.start);
    forall i | 0 <= i < |InstallTrace(L, d, bl, k)| ensures RecoveryState(L, d, InstallTrace(L, d, bl, k)[i]) {
      if k > 0 { InstallTraceAt(L, d, bl, k, 0); InstallTraceAt(L, d, bl, k, i); }
    }
    ClearedIsHeaded(L, Installed(L, d, bl, k));
  }

  /** The log and the cache outside a commit: the log on disk is empty, a buffer is dirty exactly if its block is in the header,
      home blocks are outside the log, and nobody else uses the buffers of log blocks. */
  ghost predicate Quiet(L: Layout, d: Disk, bl: seq<int>, dirty: set<int>, refs: set<int>) {
    && Fits(L, d) && Count(L, d) == 0 && HomesOk(L, |d|, bl) && dirty == Elems(bl)
    && forall b :: InLog(L, b) ==> b !in refs
  }

  lemma {:induction false} QuietAtBoot(L: Layout, d: Disk, refs: set<int>)
    requires Recoverable(L, d) && forall b :: InLog(L, b) ==> b !in refs
    ensures Quiet(L, Recovered(L, d), [], {}, refs)
  {
    assert InLog(L, L.start);
  }

  /** An operation within its credit finds room in the header. */
  lemma {:induction false} Room(c: P.Config, s: P.State, i: int)
    requires P.Inv(c, s) && 0 <= i < |s.ops| && s.ops[i].Active?
    ensures s.outstanding >= 1 && !s.committing && (s.ops[i].used < c.maxop ==> |s.lh| < c.logsize)
  {
    P.SomeOutstanding(s.ops, i, |s.ops|);
    P.OutstandingCredits(c, s.ops, |s.ops|);
  }

  ghost function Added(bl: seq<int>, b: int): seq<int> { if b in bl then bl else bl + [b] }

  /** log_write()'s two steps in the protocol. */
  lemma {:induction false} LogSteps(c: P.Config, s: P.State, i: int, b: int)
    requires P.Inv(c, s) && 0 <= i < |s.ops| && s.ops[i].Active? && P.MayLog(c, s, i, b) && !P.TooBig(c, s) && s.outstanding >= 1
    ensures var s' := s.(lh := Added(s.lh, b), ops := if b in s.lh then s.ops else s.ops[i := P.Active(s.ops[i].used + 1)]);
            P.Steps2(c, s, P.Check(i, b), P.Append(i), s') && P.Inv(c, s')
  {
    P.StepInv(c, s, P.Check(i, b));
    P.StepInv(c, P.Next(c, s, P.Check(i, b)), P.Append(i));
    hide P.Inv;
  }

  lemma {:induction false} QuietLogged(L: Layout, d: Disk, bl: seq<int>, dirty: set<int>, refs: set<int>, b: int)
    requires Quiet(L, d, bl, dirty, refs) && 0 <= b < |d| && !InLog(L, b) && |bl| < L.size - 1
    ensures Quiet(L, d, Added(bl, b), dirty + {b}, refs)
  {
  }

  /** begin_op()'s test leaves room for all that the operations in progress and a new one may log; where it fails, somebody
      is in progress or commits, unless one operation alone is too big. */
  lemma {:induction false} BeginStep(c: P.Config, s: P.State, i: int)
    requires P.Inv(c, s) && 0 <= i < |s.ops| && s.ops[i] == P.Idle
    ensures var t := s.(outstanding := s.outstanding + 1, ops := s.ops[i := P.Active(0)]);
            P.Enabled(c, s, P.Begin(i)) ==>
              P.Steps(c, s, P.Begin(i), t) && P.Inv(c, t) && |t.lh| + P.Credits(c.maxop, t.ops, |t.ops|) <= c.logsize
    ensures !P.Enabled(c, s, P.Begin(i)) && c.maxop <= c.logsize ==> s.committing || s.outstanding >= 1
  {
    if P.Enabled(c, s, P.Begin(i)) { P.StepInv(c, s, P.Begin(i)); }
  }

  /** end_op()'s steps in the protocol, with the commit between the two of the last operation. */
  lemma {:induction false} EndSteps(c: P.Config, s: P.State, i: int)
    requires P.Inv(c, s) && 0 <= i < |s.ops| && s.ops[i].Active?
    ensures s.outstanding >= 1 && !s.committing && Distinct(s.lh)
    ensures s.outstanding > 1 ==>
      var t := s.(outstanding := s.outstanding - 1, ops := s.ops[i := P.Idle]); P.Steps(c, s, P.End(i), t) && P.Inv(c, t)
    ensures s.outstanding == 1 ==>
      var t := s.(lh := [], outstanding := 0, ops := s.ops[i := P.Idle]); P.Steps2(c, s, P.End(i), P.Finish(i), t) && P.Inv(c, t)
  {
    P.SomeOutstanding(s.ops, i, |s.ops|);
    P.StepInv(c, s, P.End(i));
    var t := P.Next(c, s, P.End(i));
    if s.outstanding == 1 {
      P.StepInv(c, t, P.Finish(i));
      assert t.ops[i := P.Idle] == s.ops[i := P.Idle];
    }
    hide P.Inv;
  }

  /** A whole commit goes into the history, and the log is quiet again. */
  lemma {:induction false} Transacted(L: Layout, ds: seq<Disk>, epoch: seq<nat>, commits: seq<Disk>, d: Disk, v: Disk, bl: seq<int>, refs: set<int>)
    requires Quiet(L, d, bl, Elems(bl), refs) && bl != [] && |v| == |d| && History(L, ds, epoch, commits) && Current(L, epoch, commits, d)
    requires forall b :: 0 <= b < |d| && b !in Elems(bl) ==> d[b] == v[b]
    ensures Transaction(L, d, bl, Data(v, bl)) && commits != []
    ensures CommitState(L, d, bl, Data(v, bl), 0) == d && CommitTrace(L, d, bl, Data(v, bl), 0) == []
    ensures var d', ds' := CommitState(L, d, bl, Data(v, bl), 2 * |bl| + 2), CommitTrace(L, d, bl, Data(v, bl), 2 * |bl| + 2);
            var epoch' := epoch + Epochs(|commits| - 1, |bl|, |ds'|);
            && |ds'| == 2 * |bl| + 2 && Atomic(L, ds', |bl|, d, v) && SameHome(L, d', v) && Quiet(L, d', [], {}, refs)
            && History(L, ds + ds', epoch', commits + [v]) && Current(L, epoch', commits + [v], d')
  {
    hide History, Atomic, CommitState, CommitTrace, Applied, Elems, Data, Recoverable, Recovered;
    var data := Data(v, bl);
    var d', ds' := CommitState(L, d, bl, data, 2 * |bl| + 2), CommitTrace(L, d, bl, data, 2 * |bl| + 2);
    CommitTraceEmpty(L, d, bl, data);
    CommitLogs(L, d, bl, data, 0);
    AppliedIsView(L, d, v, bl);
    CommitAtomic(L, d, bl, data, 2 * |bl| + 2, v);
    CommitDurable(L, d, v, bl);
    CommitFits(L, d, bl, data);
    HistoryGrows(L, ds, epoch, commits, d, ds', |bl|, v);
    NoElems();
  }

  lemma {:induction false} Suffixes(tr: seq<Disk>, k: nat, ds: seq<Disk>)
    requires k <= |tr|
    ensures (tr + ds)[k..] == tr[k..] + ds && (tr + ds)[|tr|..] == ds && (tr + ds)[..|tr|] == tr
    ensures tr + [] == tr && tr[|tr|..] == [] && tr[..|tr|] == tr
  {
  }

  lemma {:induction false} NoWrites(L: Layout, n: nat, before: Disk, after: Disk)
    ensures Atomic(L, [], n, before, after)
  {
  }

  lemma {:induction false} CommitFits(L: Layout, d: Disk, bl: seq<int>, data: seq<Block>)
    requires Transaction(L, d, bl, data)
    ensures Fits(L, CommitState(L, d, bl, data, 2 * |bl| + 2)) && |CommitState(L, d, bl, data, 2 * |bl| + 2)| == |d|
  {
    assert InLog(L, L.start);
  }

  /** Using a block outside the log, or giving it back, leaves the log quiet. */
  lemma {:induction false} QuietRefs(L: Layout, d: Disk, bl: seq<int>, dirty: set<int>, refs: set<int>, refs': set<int>, b: int)
    requires Quiet(L, d, bl, dirty, refs) && !InLog(L, b) && refs' <= refs + {b}
    ensures Quiet(L, d, bl, dirty, refs')
  {
  }

  lemma {:induction false} ElemsCard(bl: seq<int>)
    requires Distinct(bl)
    ensures |Elems(bl)| == |bl|
  {
    DistinctCard(bl);
  }

  class Log {
    const cache: Cache
    const start: int
    const size: int
    const logsize: nat           // LOGSIZE
    const maxop: nat             // MAXOPBLOCKS
    var outstanding: int
    var committing: bool
    var block: seq<int>          // lh.block[..lh.n]
    ghost var ops: seq<P.Op>     // the operations, by process
    ghost var base: nat          // the disk writes before boot
    ghost var epoch: seq<nat>    // the transaction to which each later write belongs
    ghost var commits: seq<Disk> // the home blocks after each transaction

    ghost const L: Layout := Layout(start, size)
    ghost const C: P.Config := P.Config(maxop, logsize, size)

    constructor (cache: Cache, start: int, size: int, logsize: nat, maxop: nat, ghost n: nat)
      ensures this.cache == cache && this.start == start && this.size == size && this.logsize == logsize && this.maxop == maxop
      ensures P.Initial(State()) && |ops| == n
    {
      this.cache, this.start, this.size, this.logsize, this.maxop := cache, start, size, logsize, maxop;
      outstanding, committing, block := 0, false, [];
      ops, base, epoch, commits := seq(n, _ => P.Idle), 0, [], [];
    }

    /** The state of the group commit protocol. */
    ghost function State(): P.State
      reads this
    {
      P.State(block, outstanding, committing, ops)
    }

    ghost predicate Valid()
      reads this, cache, cache.bufs
    {
      && cache.Valid() && P.Inv(C, State())
      && base <= |cache.trace| && History(L, cache.trace[base..], epoch, commits)
      && (!committing ==> Quiet(L, cache.disk, block, cache.Dirty(), cache.Refs()) && Current(L, epoch, commits, cache.disk))
    }

    /** memmove(), bwrite() and the two brelse() of a turn: block d on disk becomes what buffer src of block h holds. */
    method CopyTo(dst: int, ghost d: int, src: int, ghost h: int)
      requires cache.Valid() && cache.Held(dst, d) && cache.Held(src, h) && d != h && 0 <= d < |cache.disk| && 0 <= h < |cache.disk|
      requires cache.bufs[src].dirty || cache.bufs[src].data == cache.disk[h]
      modifies cache, cache.bufs
      ensures cache.Valid() && cache.disk == old(cache.disk)[d := old(cache.bufs[src].data)] && cache.trace == old(cache.trace) + [cache.disk]
      ensures cache.Contents() == old(cache.Contents())[d := old(cache.bufs[src].data)] && cache.Dirty() == old(cache.Dirty()) - {d}
      ensures cache.Locked() == old(cache.Locked()) - {d} - {h}
      ensures cache.Free() == old(cache.Free()) + (if old(cache.bufs[dst].refcnt) == 1 then {dst} else {})
                            + (if old(cache.bufs[src].refcnt) == 1 && !old(cache.bufs[src].dirty) then {src} else {})
      ensures cache.Refs() == old(cache.Refs()) - (if old(cache.bufs[dst].refcnt) == 1 then {d} else {})
                            - (if old(cache.bufs[src].refcnt) == 1 then {h} else {})
    {
      hide CacheInv, View, DirtySet, LockedSet, FreeSet, RefSet;
      cache.SetData(dst, cache.bufs[src].data, d);
      cache.Bwrite(dst, d);
      cache.Brelse(src, h);
      cache.Brelse(dst, d);
    }

    /** The two bread() of a turn: log block l, which nobody uses, and home block h.  lb or hb is -1 where bget() panics. */
    method ReadBoth(l: int, h: int) returns (lb: int, hb: int)
      requires cache.Valid() && 0 <= l < |cache.disk| && 0 <= h < |cache.disk| && l != h
      requires l !in cache.Refs() && h !in cache.Locked() && l !in cache.Dirty()
      modifies cache, cache.bufs
      ensures cache.Valid() && cache.disk == old(cache.disk) && cache.trace == old(cache.trace)
      ensures cache.Contents() == old(cache.Contents()) && cache.Dirty() == old(cache.Dirty())
      ensures lb == -1 ==> hb == -1
      ensures hb != -1 ==> cache.Held(lb, l) && !cache.bufs[lb].dirty && cache.bufs[lb].data == cache.Contents()[l] == cache.disk[l]
      ensures hb != -1 ==> cache.Held(hb, h) && cache.bufs[hb].data == cache.Contents()[h]
      ensures hb != -1 ==> cache.bufs[hb].dirty == (h in cache.Dirty()) && (!cache.bufs[hb].dirty ==> cache.bufs[hb].data == cache.disk[h])
      ensures hb != -1 ==> cache.bufs[lb].refcnt == 1 && (cache.bufs[hb].refcnt == 1 <==> h !in old(cache.Refs()))
      ensures hb != -1 ==> cache.Locked() == old(cache.Locked()) + {l} + {h} && cache.Refs() == old(cache.Refs()) + {l} + {h}
      ensures l !in old(cache.Locked())
      ensures hb != -1 ==> cache.Free() == old(cache.Free()) - {lb} - {hb} && lb in old(cache.Free())
      ensures hb != -1 ==> (hb in old(cache.Free()) ==> h !in cache.Dirty() && h !in old(cache.Refs()))
      ensures h in old(cache.Dirty()) ==> (hb != -1 <==> old(cache.Free()) != {})
      ensures |old(cache.Free())| >= 2 ==> hb != -1
      ensures cache.nbuf == 1 ==> hb == -1
    {
      hide CacheInv, View, DirtySet, LockedSet, FreeSet, RefSet, SameButLinks;
      cache.LockedReferenced();
      var got;
      lb, got := cache.Bread(l);
      if lb == -1 { return -1, -1; }
      TwoLessOne(old(cache.Free()), lb);
      cache.OneBuffer(lb, l, h);
      hb, got := cache.Bread(h);
    }

    /** The machine stops after the i-th disk write, and recoveries follow, the last one whole: the home blocks are those of the
        transaction to which the write belongs. */
    lemma {:induction false} CrashRecovers(i: nat, cs: seq<Disk>)
      requires Valid() && base <= i < |cache.trace| && RecoveryChain(L, cs) && cs[0] == cache.trace[i]
      ensures i - base < |epoch| && epoch[i - base] < |commits|
      ensures var last := cs[|cs| - 1]; Recoverable(L, last) && SameHome(L, Recovered(L, last), commits[epoch[i - base]])
    {
      assert cache.trace[base..][i - base] == cache.trace[i];
      CrashAnywhere(L, cache.trace[base..], epoch, commits, i - base, cs);
    }

    /** Between transactions the same holds of the last one: what was committed is there, what was not is gone. */
    lemma {:induction false} QuietRecovers(cs: seq<Disk>)
      requires Valid() && !committing && RecoveryChain(L, cs) && cs[0] == cache.disk
      ensures commits != []
      ensures var last := cs[|cs| - 1]; Recoverable(L, last) && SameHome(L, Recovered(L, last), commits[|commits| - 1])
    {
      assert Homes(cache.disk[start], 0) == [];
      assert Entries(L, cache.disk) == [];
      RecoverChain(L, cs, |cs| - 1);
    }

    /** One turn of write_log(): home block h is copied into log block l.  Returns false where bget() panics. */
    method WriteOne(l: int, h: int) returns (ok: bool)
      requires cache.Valid() && 0 <= l < |cache.disk| && 0 <= h < |cache.disk| && l != h
      requires l !in cache.Refs() && h !in cache.Locked() && l !in cache.Dirty()
      modifies cache, cache.bufs
      ensures cache.Valid()
      ensures !ok ==> cache.disk == old(cache.disk) && cache.trace == old(cache.trace)
      ensures ok ==> cache.disk == old(cache.disk)[l := old(cache.Contents())[h]] && cache.trace == old(cache.trace) + [cache.disk]
      ensures ok ==> cache.Contents() == old(cache.Contents())[l := old(cache.Contents())[h]]
      ensures ok ==> cache.Dirty() == old(cache.Dirty()) && cache.Locked() == old(cache.Locked()) && cache.Refs() == old(cache.Refs())
      ensures h in old(cache.Dirty()) ==> (ok <==> old(cache.Free()) != {}) && (ok ==> cache.Free() == old(cache.Free()))
    {
      hide CacheInv, View, DirtySet, LockedSet, FreeSet, RefSet, SameButLinks;
      var to, from := ReadBoth(l, h);
      if from == -1 { return false; }
      TurnBack(old(cache.Refs()), old(cache.Locked()), old(cache.Free()), l, h, to, from, cache.bufs[from].refcnt == 1);
      CopyTo(to, l, from, h);
      ok := true;
    }

    /** One turn of install_trans(): log block l is copied to its home h.  Returns false where bget() panics. */
    method InstallOne(l: int, h: int) returns (ok: bool)
      requires cache.Valid() && 0 <= l < |cache.disk| && 0 <= h < |cache.disk| && l != h
      requires l !in cache.Refs() && h !in cache.Locked() && l !in cache.Dirty()
      modifies cache, cache.bufs
      ensures cache.Valid()
      ensures !ok ==> cache.disk == old(cache.disk) && cache.trace == old(cache.trace)
      ensures ok ==> cache.disk == old(cache.disk)[h := old(cache.Contents())[l]] && cache.trace == old(cache.trace) + [cache.disk]
      ensures ok ==> cache.Contents() == old(cache.Contents())[h := old(cache.Contents())[l]]
      ensures ok ==> cache.Dirty() == old(cache.Dirty()) - {h} && cache.Locked() == old(cache.Locked()) && cache.Refs() == old(cache.Refs())
      ensures h in old(cache.Dirty()) ==> (ok <==> old(cache.Free()) != {})
      ensures |old(cache.Free())| >= 2 ==> ok
      ensures cache.nbuf == 1 ==> !ok
      ensures ok ==> cache.Free() >= old(cache.Free())
    {
      hide CacheInv, View, DirtySet, LockedSet, FreeSet, RefSet, SameButLinks;
      var lbuf, dbuf := ReadBoth(l, h);
      if dbuf == -1 { return false; }
      TurnBack(old(cache.Refs()), old(cache.Locked()), old(cache.Free()), l, h, lbuf, dbuf, cache.bufs[dbuf].refcnt == 1);
      CopyTo(dbuf, h, lbuf, l);
      ok := true;
    }

    /** write_head(): the header block gets the entries in memory. */
    method WriteHead() returns (ok: bool)
      requires cache.Valid() && Fits(L, cache.disk) && |block| < size
      requires start !in cache.Refs() && start !in cache.Dirty()
      modifies cache, cache.bufs
      ensures cache.Valid()
      ensures !ok ==> cache.disk == old(cache.disk) && cache.trace == old(cache.trace)
      ensures ok ==> cache.disk == Headed(L, old(cache.disk), block) && cache.trace == old(cache.trace) + [cache.disk]
      ensures ok ==> cache.Contents() == old(cache.Contents())[start := Header(old(cache.disk)[start], block)]
      ensures ok ==> cache.Dirty() == old(cache.Dirty()) && cache.Locked() == old(cache.Locked()) && cache.Refs() == old(cache.Refs())
      ensures ok <==> old(cache.Free()) != {}
      ensures ok ==> cache.Free() == old(cache.Free())
    {
      hide CacheInv, View, DirtySet, LockedSet, FreeSet, RefSet, SameButLinks;
      cache.LockedReferenced();
      cache.CleanContents(start);
      var buf, _ := cache.Bread(start);
      if buf == -1 { return false; }
      var h := FillHeader(cache.bufs[buf].data);
      cache.SetData(buf, h, start);
      cache.Bwrite(buf, start);
      cache.Brelse(buf, start);
      ok := true;
      assert cache.Locked() == old(cache.Locked());
      assert cache.Refs() == old(cache.Refs());
    }

    /** The writes of write_head() into the header block. */
    method FillHeader(hb: Block) returns (h: Block)
      requires |block| < |hb|
      ensures h == Header(hb, block)
    {
      h := hb[0 := |block|];
      for i := 0 to |block|
        invariant |h| == |hb| && h[0] == |block|
        invariant forall k :: 0 <= k < i ==> h[1 + k] == block[k]
        invariant forall k :: i < k < |hb| ==> h[k] == hb[k]
      {
        h := h[1 + i := block[i]];
      }
      assert forall k :: 0 < k <= |block| ==> h[k] == block[k - 1];
    }

    /** Nobody uses a buffer of a log block or holds one of a logged block, and no log block is dirty. */
    ghost predicate Undisturbed()
      requires cache.Valid()
      reads this, cache, cache.bufs
    {
      && Fits(L, cache.disk) && HomesOk(L, |cache.disk|, block)
      && (forall b :: InLog(L, b) ==> b !in cache.Refs() && b !in cache.Dirty())
      && Released()
    }

    /** Nobody holds a logged block. */
    ghost predicate Released()
      requires cache.Valid()
      reads this, cache, cache.bufs
    {
      forall i :: 0 <= i < |block| ==> block[i] !in cache.Locked()
    }

    /** write_log(): the logged blocks are copied from the cache into the log; n counts the copies made. */
    method WriteLog() returns (ok: bool, ghost n: nat)
      requires cache.Valid() && Undisturbed()
      modifies cache, cache.bufs
      ensures cache.Valid() && n <= |block| && (ok <==> n == |block|)
      ensures var data := Data(old(cache.Contents()), block);
              && cache.disk == Logged(L, old(cache.disk), data, n)
              && cache.trace == old(cache.trace) + CommitTrace(L, old(cache.disk), block, data, n)
      ensures ok ==> Undisturbed() && SameHome(L, cache.Contents(), old(cache.Contents()))
      ensures ok ==> cache.Dirty() == old(cache.Dirty()) && cache.Locked() == old(cache.Locked()) && cache.Refs() == old(cache.Refs())
      ensures AllIn(block, old(cache.Dirty())) ==> (ok <==> block == [] || old(cache.Free()) != {}) && (!ok ==> n == 0)
      ensures AllIn(block, old(cache.Dirty())) && ok ==> cache.Free() == old(cache.Free())
    {
      hide CacheInv, View, DirtySet, LockedSet, FreeSet, RefSet, CommitTrace, Logged, SameHome;
      ghost var d0, v0 := cache.disk, cache.Contents();
      ghost var data := Data(v0, block);
      CommitTraceEmpty(L, d0, block, data);
      LoggedNone(L, d0, data, v0);
      var tail := 0;
      while tail < |block|
        invariant cache.Valid() && 0 <= tail <= |block|
        invariant cache.Dirty() == old(cache.Dirty()) && cache.Locked() == old(cache.Locked()) && cache.Refs() == old(cache.Refs())
        invariant cache.disk == Logged(L, d0, data, tail)
        invariant cache.trace == old(cache.trace) + CommitTrace(L, d0, block, data, tail)
        invariant SameHome(L, cache.Contents(), v0)
        invariant AllIn(block, old(cache.Dirty())) ==> cache.Free() == old(cache.Free()) && (tail > 0 ==> cache.Free() != {})
      {
        assert InLog(L, start + tail + 1) && !InLog(L, block[tail]);
        LoggedNext(L, d0, data, tail);
        HomesKept(L, cache.Contents(), v0, start + tail + 1, data[tail], block[tail]);
        ok := WriteOne(start + tail + 1, block[tail]);
        n := tail;
        if !ok { return; }
        tail := tail + 1;
        CommitTraceLog(L, d0, block, data, tail);
      }
      ok, n := true, |block|;
    }

    /** install_trans(): the logged blocks are copied from the log to their homes; n counts the copies made. */
    method InstallTrans() returns (ok: bool, ghost n: nat)
      requires cache.Valid() && Undisturbed()
      modifies cache, cache.bufs
      ensures cache.Valid() && n <= |block| && (ok <==> n == |block|)
      ensures cache.disk == Installed(L, old(cache.disk), block, n)
      ensures cache.trace == old(cache.trace) + InstallTrace(L, old(cache.disk), block, n)
      ensures ok ==> cache.Dirty() == old(cache.Dirty()) - Elems(block) && cache.Locked() == old(cache.Locked()) && cache.Refs() == old(cache.Refs())
      ensures (old(cache.Free()) != {} && AllIn(block, old(cache.Dirty())) && Distinct(block)) || |old(cache.Free())| >= 2 ==> ok
      ensures cache.nbuf == 1 && block != [] ==> !ok
      ensures ok ==> cache.Free() >= old(cache.Free())
    {
      hide CacheInv, View, DirtySet, LockedSet, FreeSet, RefSet, InstallTrace, Elems, Installed;
      ghost var d0 := cache.disk;
      InstallNone(L, d0, block);
      var tail := 0;
      while tail < |block|
        invariant cache.Valid() && 0 <= tail <= |block| && (cache.nbuf == 1 ==> tail == 0)
        invariant cache.Dirty() == old(cache.Dirty()) - Elems(block[..tail]) && cache.Locked() == old(cache.Locked()) && cache.Refs() == old(cache.Refs())
        invariant cache.disk == Installed(L, d0, block, tail)
        invariant cache.trace == old(cache.trace) + InstallTrace(L, d0, block, tail)
        invariant cache.Free() >= old(cache.Free())
      {
        assert InLog(L, start + tail + 1) && !InLog(L, block[tail]);
        InstallTraceGrows(L, d0, block, tail);
        ElemsGrow(block, tail);
        StillDirty(block, tail, old(cache.Dirty()));
        FreeMore(old(cache.Free()), cache.Free());
        cache.CleanContents(start + tail + 1);
        ok := InstallOne(start + tail + 1, block[tail]);
        n := tail;
        if !ok { return; }
        tail := tail + 1;
      }
      ok, n := true, |block|;
      assert block[..|block|] == block;
    }

    /** Between transactions a block that is not logged is on disk as the file system sees it; and with no buffer in use, one
        can be recycled exactly if not all hold logged blocks. */
    lemma {:induction false} BeforeCommit()
      requires cache.Valid() && Quiet(L, cache.disk, block, cache.Dirty(), cache.Refs()) && Distinct(block) && Released()
      ensures Undisturbed() && AllIn(block, cache.Dirty()) && |cache.Contents()| == |cache.disk|
      ensures forall b :: 0 <= b < |cache.disk| && b !in Elems(block) ==> cache.disk[b] == cache.Contents()[b]
      ensures cache.Refs() == {} ==> (block == [] || cache.Free() != {} <==> |block| < cache.nbuf)
    {
      forall b | 0 <= b < |cache.disk| && b !in Elems(block) ensures cache.disk[b] == cache.Contents()[b] {
        cache.CleanContents(b);
      }
      ElemsCard(block);
      if cache.Refs() == {} { cache.FreeBuffers(); }
    }

    /** commit().  t counts its disk writes: all 2n+2 of them, or fewer where bget() panics on the way. */
    method Commit() returns (ok: bool, ghost t: nat)
      requires cache.Valid() && Undisturbed()
      modifies this`block, cache, cache.bufs
      ensures cache.Valid()
      ensures old(block) == [] ==> ok && t == 0 && block == [] && cache.disk == old(cache.disk) && cache.trace == old(cache.trace) && cache.Contents() == old(cache.Contents())
      ensures old(block) != [] ==> t <= 2 * |old(block)| + 2 && (ok <==> t == 2 * |old(block)| + 2)
      ensures old(block) != [] ==>
        var data := Data(old(cache.Contents()), old(block));
        && cache.disk == CommitState(L, old(cache.disk), old(block), data, t)
        && cache.trace == old(cache.trace) + CommitTrace(L, old(cache.disk), old(block), data, t)
      ensures ok ==> block == [] && cache.Dirty() == old(cache.Dirty()) - Elems(old(block))
      ensures ok ==> cache.Locked() == old(cache.Locked()) && cache.Refs() == old(cache.Refs())
      ensures AllIn(old(block), old(cache.Dirty())) && Distinct(old(block)) ==>
        (ok <==> old(block) == [] || old(cache.Free()) != {}) && (!ok ==> t == 0)
    {
      hide CacheInv, View, DirtySet, LockedSet, FreeSet, RefSet, InstallTrace, CommitTrace, Elems, Installed, Logged, Headed, CommitState, Committed, SameHome, Data, Header;
      if block == [] { assert Elems(block) == {} by { NoElems(); } return true, 0; }
      ghost var d0, data := cache.disk, Data(cache.Contents(), block);
      ghost var bl := block;
      CommitHeads(L, d0, bl, data);
      ok, t := WriteLog();
      CommitLogs(L, d0, bl, data, t);
      if !ok { return; }
      assert InLog(L, start);
      ok := WriteHead();
      if !ok { return; }
      ghost var k;
      ok, k := InstallTrans();
      CommitInstalls(L, d0, bl, data, k);
      t := |bl| + 1 + k;
      if !ok { return; }
      CommitClears(L, d0, bl, data);
      FreeMore(old(cache.Free()), cache.Free());
      block := [];
      ok := WriteHead();
      if ok { t := t + 1; }
    }

    /** The loop of read_head(). */
    method CopyEntries(lh: Block) returns (bl: seq<int>)
      requires |lh| > 0 && 0 <= lh[0] < |lh|
      ensures bl == Homes(lh, lh[0])
    {
      bl := [];
      for i := 0 to lh[0]
        invariant |bl| == i && forall k :: 0 <= k < i ==> bl[k] == lh[1 + k]
      {
        bl := bl + [lh[1 + i]];
      }
    }

    /** read_head(): the entries in memory become those of the header block. */
    method ReadHead() returns (ok: bool)
      requires cache.Valid() && Recoverable(L, cache.disk) && start !in cache.Refs() && start !in cache.Dirty()
      modifies this`block, cache, cache.bufs
      ensures cache.Valid() && cache.disk == old(cache.disk) && cache.trace == old(cache.trace) && cache.Dirty() == old(cache.Dirty())
      ensures ok ==> block == Entries(L, cache.disk) && cache.Locked() == old(cache.Locked()) && cache.Refs() == old(cache.Refs())
      ensures ok <==> old(cache.Free()) != {}
      ensures ok ==> cache.Free() == old(cache.Free())
    {
      hide CacheInv, View, DirtySet, LockedSet, FreeSet, RefSet, SameButLinks;
      cache.LockedReferenced();
      cache.CleanContents(start);
      var buf, _ := cache.Bread(start);
      if buf == -1 { return false; }
      block := CopyEntries(cache.bufs[buf].data);
      cache.Brelse(buf, start);
      ok := true;
      assert cache.Locked() == old(cache.Locked());
      assert cache.Refs() == old(cache.Refs());
    }

    /** recover_from_log(), on a cache without dirty or held buffers.  Wherever it stops, the disk is one from which another
        recovery gives the same home blocks. */
    method Recover() returns (ok: bool)
      requires cache.Valid() && Recoverable(L, cache.disk) && cache.Dirty() == {} && cache.Locked() == {}
      requires forall b :: InLog(L, b) ==> b !in cache.Refs()
      modifies this`block, cache, cache.bufs
      ensures cache.Valid()
      ensures |cache.trace| >= |old(cache.trace)| && cache.trace[..|old(cache.trace)|] == old(cache.trace)
      ensures forall i :: |old(cache.trace)| <= i < |cache.trace| ==> RecoveryState(L, old(cache.disk), cache.trace[i])
      ensures RecoveryState(L, old(cache.disk), cache.disk)
      ensures ok ==> block == [] && cache.disk == Recovered(L, old(cache.disk)) && cache.Contents() == cache.disk
      ensures ok ==> cache.Dirty() == {} && cache.Locked() == {} && cache.Refs() == old(cache.Refs())
      ensures old(cache.Refs()) == {} ==> (ok <==> Count(L, old(cache.disk)) == 0 || cache.nbuf >= 2)
    {
      hide CacheInv, View, DirtySet, LockedSet, FreeSet, RefSet, Elems, Recoverable, Recovered, InstallTrace, RecoveryState, Installed;
      ghost var d := cache.disk;
      RecoverReady(L, d);
      FreeAtBoot();
      ok := ReadHead();
      if !ok { return; }
      ghost var k;
      ok, k := InstallTrans();
      RecoverStates(L, d, k);
      if !ok { return; }
      FreeMore(old(cache.Free()), cache.Free());
      block := [];
      ok := WriteHead();
      cache.AllClean();
    }

    /** initlog() once the superblock is read: recovery, after which the log is empty and a history begins. */
    method Initlog() returns (ok: bool)
      requires cache.Valid() && Recoverable(L, cache.disk) && cache.Dirty() == {} && cache.Locked() == {}
      requires P.Initial(State()) && forall b :: InLog(L, b) ==> b !in cache.Refs()
      modifies this`block, this`base, this`epoch, this`commits, cache, cache.bufs
      ensures cache.Valid() && RecoveryState(L, old(cache.disk), cache.disk)
      ensures ok ==> Valid() && P.Initial(State()) && cache.disk == Recovered(L, old(cache.disk)) && cache.Contents() == cache.disk
      ensures ok ==> cache.Locked() == {} && cache.Refs() == old(cache.Refs()) && commits == [cache.disk] && base == |old(cache.trace)|
      ensures old(cache.Refs()) == {} ==> (ok <==> Count(L, old(cache.disk)) == 0 || cache.nbuf >= 2)
    {
      hide CacheInv, View, DirtySet, LockedSet, FreeSet, RefSet, Recoverable, Recovered, RecoveryState, History, Current, P.Inv, Quiet;
      ghost var d := cache.disk;
      base := |cache.trace|;
      ok := Recover();
      if ok {
        ghost var ds := cache.trace[base..];
        epoch, commits := seq(|ds|, _ => 0), [cache.disk];
        HistoryStarts(L, d, ds, cache.disk);
        QuietAtBoot(L, d, cache.Refs());
        P.InitialInv(C, State(), |ops|);
      }
    }

    lemma {:induction false} FreeAtBoot()
      requires cache.Valid() && cache.Dirty() == {} && Fits(L, cache.disk)
      ensures cache.Refs() == {} ==> |cache.Free()| == cache.nbuf >= 1
    {
      if cache.Refs() == {} { cache.FreeBuffers(); }
    }

    /** log_write() for a held buffer, by operation i.  Returns false where it panics. */
    method LogWrite(b: int, ghost blockno: int, ghost i: int) returns (ok: bool)
      requires cache.Valid() && cache.Held(b, blockno)
      modifies this`block, this`ops, cache.bufs
      ensures ok <==> |old(block)| < logsize && |old(block)| < size - 1 && outstanding >= 1
      ensures cache.Valid() && cache.Locked() == old(cache.Locked()) && cache.Refs() == old(cache.Refs())
      ensures !ok ==> block == old(block) && ops == old(ops) && cache.bufs[..] == old(cache.bufs[..])
      ensures ok ==> block == if blockno in old(block) then old(block) else old(block) + [blockno]
      ensures ok ==> cache.Contents() == old(cache.Contents())[blockno := cache.bufs[b].data]
      ensures ok ==> cache.Dirty() == old(cache.Dirty()) + {blockno} && cache.bufs[..] == old(cache.bufs[..])[b := old(cache.bufs[b]).(dirty := true)]
      ensures old(Logs(blockno, i)) && ok ==> Valid() && P.Steps2(C, old(State()), P.Check(i, blockno), P.Append(i), State())
      ensures old(Logs(blockno, i)) && old(ops[i].used) < maxop && logsize < size ==> ok
    {
      hide CacheInv, View, DirtySet, LockedSet, FreeSet, RefSet, P.Inv, Quiet, History, Current, P.Steps2;
      ghost var s := State();
      if Logs(blockno, i) { Room(C, s, i); }
      if |block| >= logsize || |block| >= size - 1 { return false; }
      if outstanding < 1 { return false; }
      var no := cache.bufs[b].blockno;
      var j := 0;
      while j < |block|
        invariant 0 <= j <= |block| && forall k :: 0 <= k < j ==> block[k] != no
      {
        if block[j] == no { break; }
        j := j + 1;
      }
      if Logs(blockno, i) {
        LogSteps(C, s, i, blockno);
        QuietLogged(L, cache.disk, block, cache.Dirty(), cache.Refs(), blockno);
      }
      if j < |block| {
        block := block[j := no];
      } else {
        block := block + [no];
        if 0 <= i < |ops| && ops[i].Active? { ops := ops[i := P.Active(ops[i].used + 1)]; }
      }
      cache.MarkDirty(b, blockno);
      ok := true;
    }

    /** Operation i may log the block: it is within its credit or the block is in the header already. */
    ghost predicate Logs(blockno: int, i: int)
      reads this, cache, cache.bufs
    {
      Valid() && 0 <= i < |ops| && ops[i].Active? && P.MayLog(C, State(), i, blockno) && 0 <= blockno < |cache.disk| && !InLog(L, blockno)
    }

    /** begin_op() of process i without the wait: false where it has to sleep. */
    method TryBegin(ghost i: int) returns (ok: bool)
      requires Valid() && 0 <= i < |ops| && ops[i] == P.Idle
      modifies this`outstanding, this`ops
      ensures Valid()
      ensures ok ==> P.Steps(C, old(State()), P.Begin(i), State()) && |block| + P.Credits(maxop, ops, |ops|) <= logsize
      ensures !ok ==> State() == old(State()) && !P.Enabled(C, State(), P.Begin(i))
      ensures !ok && maxop <= logsize ==> committing || outstanding >= 1
    {
      hide CacheInv, P.Inv, Quiet, History, Current, P.Steps;
      BeginStep(C, State(), i);
      if committing { return false; }
      if |block| + (outstanding + 1) * maxop > logsize { return false; }
      outstanding := outstanding + 1;
      ops := ops[i := P.Active(0)];
      ok := true;
    }

    /** commit() as end_op() calls it, with the transaction going into the history. */
    method CommitNow() returns (ok: bool)
      requires cache.Valid() && Quiet(L, cache.disk, block, cache.Dirty(), cache.Refs()) && Distinct(block) && Released()
      requires base <= |cache.trace| && History(L, cache.trace[base..], epoch, commits) && Current(L, epoch, commits, cache.disk)
      modifies this`block, this`epoch, this`commits, cache, cache.bufs
      ensures cache.Valid() && |cache.trace| >= |old(cache.trace)| && cache.trace[..|old(cache.trace)|] == old(cache.trace)
      ensures ok <==> old(block) == [] || old(cache.Free()) != {}
      ensures old(cache.Refs()) == {} ==> (ok <==> |old(block)| < cache.nbuf)
      ensures !ok ==> cache.disk == old(cache.disk) && cache.trace == old(cache.trace)
      ensures ok ==> block == [] && Quiet(L, cache.disk, [], cache.Dirty(), cache.Refs())
      ensures ok ==> History(L, cache.trace[base..], epoch, commits) && Current(L, epoch, commits, cache.disk)
      ensures ok ==> cache.Locked() == old(cache.Locked()) && cache.Refs() == old(cache.Refs())
      ensures ok ==> cache.Contents() == cache.disk && SameHome(L, cache.disk, old(cache.Contents()))
      ensures ok ==> commits == if old(block) == [] then old(commits) else old(commits) + [old(cache.Contents())]
      ensures Atomic(L, cache.trace[|old(cache.trace)|..], |old(block)|, old(cache.disk), old(cache.Contents()))
    {
      hide CacheInv, View, DirtySet, LockedSet, FreeSet, RefSet, History, Current, Atomic, CommitState, CommitTrace, Recoverable, Recovered, Transaction;
      ghost var ds, bl, d, v := cache.trace[base..], block, cache.disk, cache.Contents();
      BeforeCommit();
      if bl != [] { Transacted(L, ds, epoch, commits, d, v, bl, cache.Refs()); }
      NoWrites(L, |bl|, d, v);
      NoElems();
      ghost var t;
      ok, t := Commit();
      cache.AllClean();
      Suffixes(old(cache.trace), base, if bl == [] then [] else CommitTrace(L, d, bl, Data(v, bl), t));
      if ok && bl != [] {
        epoch := epoch + Epochs(|commits| - 1, |bl|, 2 * |bl| + 2);
        commits := commits + [v];
      }
    }

    /** end_op() of process i: the last operation commits.  ok is false where a panic stops the machine. */
    method EndOp(ghost i: int) returns (ok: bool)
      requires Valid() && 0 <= i < |ops| && ops[i].Active? && (outstanding == 1 ==> Released())
      modifies this, cache, cache.bufs
      ensures cache.Valid()
      ensures ok ==> Valid() && base == old(base) && cache.Locked() == old(cache.Locked()) && cache.Refs() == old(cache.Refs())
      ensures old(outstanding) > 1 ==> ok && P.Steps(C, old(State()), P.End(i), State())
      ensures old(outstanding) > 1 ==> unchanged(cache) && unchanged(cache.bufs) && commits == old(commits) && epoch == old(epoch)
      ensures old(outstanding) == 1 ==> (ok <==> old(block) == [] || old(cache.Free()) != {})
      ensures old(outstanding) == 1 && old(cache.Refs()) == {} ==> (ok <==> |old(block)| < cache.nbuf)
      ensures !ok ==> cache.disk == old(cache.disk) && cache.trace == old(cache.trace)
      ensures old(outstanding) == 1 && ok ==> P.Steps2(C, old(State()), P.End(i), P.Finish(i), State())
      ensures old(outstanding) == 1 && ok ==> cache.Contents() == cache.disk && SameHome(L, cache.disk, old(cache.Contents()))
      ensures old(outstanding) == 1 && ok ==> commits == if old(block) == [] then old(commits) else old(commits) + [old(cache.Contents())]
      ensures |cache.trace| >= |old(cache.trace)| && cache.trace[..|old(cache.trace)|] == old(cache.trace)
      ensures Atomic(L, cache.trace[|old(cache.trace)|..], |old(block)|, old(cache.disk), old(cache.Contents()))
    {
      hide CacheInv, View, DirtySet, LockedSet, FreeSet, RefSet, History, Current, Atomic, Quiet, P.Inv, P.Steps, P.Steps2;
      EndSteps(C, State(), i);
      NoWrites(L, |block|, cache.disk, cache.Contents());
      Suffixes(cache.trace, 0, []);
      outstanding := outstanding - 1;
      ok := !committing;
      if ok {
        if outstanding == 0 {
          committing := true;
          ok := CommitNow();
          committing := false;
        }
        ops := ops[i := P.Idle];
      }
    }

    /** What a file system operation does to a block: bread(), change the data, log_write(), brelse().  ok is false where one of
        them panics. */
    method Modify(blockno: int, data: Block, ghost i: int) returns (ok: bool)
      requires Logs(blockno, i) && blockno !in cache.Locked()
      modifies this`block, this`ops, cache, cache.bufs
      ensures ok <==> |old(block)| < logsize && |old(block)| < size - 1
                      && !(old(cache.Free()) == {} && blockno !in old(cache.Dirty()) && blockno !in old(cache.Refs()))
      ensures ok ==> Valid() && P.Steps2(C, old(State()), P.Check(i, blockno), P.Append(i), State())
      ensures ok ==> cache.Contents() == old(cache.Contents())[blockno := data]
      ensures cache.disk == old(cache.disk) && cache.trace == old(cache.trace)
      ensures ok ==> cache.Locked() == old(cache.Locked()) && cache.Refs() == old(cache.Refs())
    {
      hide CacheInv, View, DirtySet, LockedSet, FreeSet, RefSet, History, Current, Quiet, P.Inv, P.Steps2;
      Room(C, State(), i);
      ghost var r := cache.Refs();
      var b, _ := cache.Bread(blockno);
      if b == -1 { return false; }
      cache.SetData(b, data, blockno);
      QuietRefs(L, cache.disk, block, cache.Dirty(), r, cache.Refs(), blockno);
      assert Logs(blockno, i);
      ok := LogWrite(b, blockno, i);
      if ok {
        ghost var r' := cache.Refs();
        cache.Brelse(b, blockno);
        QuietRefs(L, cache.disk, block, cache.Dirty(), r', cache.Refs(), blockno);
      }
    }
  }
}
