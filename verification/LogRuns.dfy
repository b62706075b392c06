/** A run of log.c over the buffer cache in which a commit finds no buffer: operations that use up their
    credits fill the header, and with as many buffers as LOGSIZE every buffer is then dirty. */
module LogRuns {
  import opened Counting
  import opened BufferCache
  import opened LogFormat
  import opened WriteAheadLog
  import P = LogProtocol

  /** With no buffer in use, those that can be recycled are as many as the header leaves. */
  lemma {:induction false} BuffersLeft(log: Log)
    requires log.Valid() && !log.committing && log.cache.Refs() == {}
    ensures |log.cache.Free()| == log.cache.nbuf - |log.block| && log.cache.Locked() == {}
  {
    log.cache.FreeBuffers();
    log.cache.LockedReferenced();
    ElemsCard(log.block);
  }

  /** q operations begin. */
  method BeginAll(log: Log, ghost n: nat, q: nat)
    requires log.Valid() && log.State() == P.Filled(n, P.Zeros(0), 0) && q <= n && log.logsize == q * log.maxop
    modifies log
    ensures log.Valid() && log.State() == P.Filled(n, P.Zeros(q), 0)
  {
    hide CacheInv, P.Inv, Quiet, History, Current, P.Filled, P.Zeros;
    for a := 0 to q
      invariant log.Valid() && log.State() == P.Filled(n, P.Zeros(a), 0)
    {
      P.BeginNext(log.C, q, n, a);
      IdleNext(n, P.Zeros(a));
      var ok := log.TryBegin(a);
    }
  }

  lemma {:induction false} IdleNext(n: nat, us: seq<nat>)
    requires |us| < n
    ensures |P.Filled(n, us, 0).ops| == n && P.Filled(n, us, 0).ops[|us|] == P.Idle
  {
  }

  /** The operations log one block after the other until the credits are used up.  Which of them logs a block is left open. */
  method LogAll(log: Log, ghost n: nat, q: nat, data: Block) returns (ghost us: seq<nat>)
    requires log.Valid() && q <= n && log.State() == P.Filled(n, P.Zeros(q), 0) && log.cache.Refs() == {}
    requires log.logsize == q * log.maxop == log.cache.nbuf < log.size && log.logsize <= log.start
    modifies log, log.cache, log.cache.bufs
    ensures log.Valid() && |us| == q && log.State() == P.Filled(n, us, 0) && P.Sum(us) == log.logsize && log.cache.Refs() == {}
    ensures log.cache.disk == old(log.cache.disk) && log.cache.trace == old(log.cache.trace)
  {
    hide CacheInv, P.Inv, Quiet, History, Current, P.Filled, P.Zeros, P.Sum, FreeSet, DirtySet, LockedSet, RefSet, View;
    us := P.Zeros(q);
    for k := 0 to log.logsize
      invariant log.Valid() && |us| == q && log.State() == P.Filled(n, us, 0) && P.Sum(us) == k && log.cache.Refs() == {}
      invariant forall j :: 0 <= j < q ==> us[j] <= log.maxop
      invariant log.cache.disk == old(log.cache.disk) && log.cache.trace == old(log.cache.trace)
    {
      ghost var i := P.LessShare(us, log.maxop);
      P.LogNext(log.C, n, us, i);
      P.SumSet(us, i, us[i] + 1);
      FilledAt(n, us, i);
      BuffersLeft(log);
      OnDisk(log, k);
      var ok := log.Modify(k, data, i);
      us := us[i := us[i] + 1];
    }
  }

  lemma {:induction false} FilledAt(n: nat, us: seq<nat>, i: nat)
    requires i < |us| <= n
    ensures var s := P.Filled(n, us, 0);
            |s.ops| == n && s.ops[i] == P.Active(us[i]) && |s.lh| == P.Sum(us) && !s.committing && s.outstanding == |us|
  {
  }

  lemma {:induction false} OnDisk(log: Log, b: int)
    requires log.Valid() && !log.committing && 0 <= b < log.start
    ensures b < |log.cache.disk| && !InLog(log.L, b)
  {
  }

  /** All operations but the last end, without a commit. */
  method EndAllButLast(log: Log, ghost n: nat, ghost us: seq<nat>, q: nat)
    requires log.Valid() && 0 < q == |us| <= n && log.State() == P.Filled(n, us, 0)
    modifies log, log.cache, log.cache.bufs
    ensures log.Valid() && log.State() == P.Filled(n, us, q - 1) && log.cache.Refs() == old(log.cache.Refs())
    ensures log.cache.disk == old(log.cache.disk) && log.cache.trace == old(log.cache.trace) && log.base == old(log.base)
  {
    hide CacheInv, P.Inv, Quiet, History, Current, P.Filled, FreeSet, DirtySet, LockedSet, RefSet, View, Atomic;
    for a := 0 to q - 1
      invariant log.Valid() && log.State() == P.Filled(n, us, a) && log.cache.Refs() == old(log.cache.Refs())
      invariant log.cache.disk == old(log.cache.disk) && log.cache.trace == old(log.cache.trace) && log.base == old(log.base)
    {
      P.EndNext(log.C, n, us, a);
      LastsAt(n, us, a);
      var ok := log.EndOp(a);
    }
  }

  lemma {:induction false} LastsAt(n: nat, us: seq<nat>, a: nat)
    requires a < |us| <= n
    ensures var s := P.Filled(n, us, a);
            |s.ops| == n && s.ops[a] == P.Active(us[a]) && |s.lh| == P.Sum(us) && !s.committing && s.outstanding == |us| - a
  {
  }

  /** With a log of full length and as many buffers as LOGSIZE, operations that stay within their credits bring commit() to a
      panic: every buffer is dirty when it asks for one for the log.  Nothing has been written then. */
  method FullTransaction(log: Log, q: nat, data: Block) returns (ok: bool)
    requires log.Valid() && P.Initial(log.State()) && log.cache.Refs() == {}
    requires 0 < q <= |log.ops| && log.logsize == q * log.maxop == log.cache.nbuf < log.size && log.logsize <= log.start
    modifies log, log.cache, log.cache.bufs
    ensures !ok && log.cache.disk == old(log.cache.disk) && log.cache.trace == old(log.cache.trace)
  {
    hide CacheInv, P.Inv, Quiet, History, Current, P.Filled, FreeSet, DirtySet, LockedSet, RefSet, View, Atomic, P.Zeros, P.Sum;
    ghost var n := |log.ops|;
    NoneBegun(log.State());
    BeginAll(log, n, q);
    ghost var us := LogAll(log, n, q, data);
    EndAllButLast(log, n, us, q);
    LastsAt(n, us, q - 1);
    BuffersLeft(log);
    ok := log.EndOp(q - 1);
  }

  lemma {:induction false} NoneBegun(s: P.State)
    requires P.Initial(s)
    ensures s == P.Filled(|s.ops|, P.Zeros(0), 0)
  {
  }

  /** The sizes of param.h with a log one block longer than the one of mkfs: a machine that booted without a log to recover
      stops in the commit of three operations that log MAXOPBLOCKS blocks each. */
  method LongerLog(disk: seq<Block>, start: int, data: Block) returns (ok: bool)
    requires 30 <= start && Recoverable(Layout(start, 31), disk)
    ensures !ok
  {
    hide CacheInv, P.Inv, Quiet, History, Current, FreeSet, DirtySet, LockedSet, RefSet, View, Recoverable, Recovered, RecoveryState, UpTo, P.Initial;
    var cache := new Cache(30, disk);
    var log := new Log(cache, start, 31, 30, 10, 3);
    var up := log.Initlog();
    ok := FullTransaction(log, 3, data);
  }
}
