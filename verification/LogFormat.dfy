/** The on-disk log of log.c: what a commit and a recovery write, block by block,
    and what a recovery makes of the disk after a crash between any two writes.

    The header block is log block 0: its first word is the number n of logged
    blocks, the next n words are their home block numbers.  Log block 1+i is the
    copy of the i-th logged block. */
module LogFormat {
  import opened BufferCache

  /** Where the log lies: the header at `start`, `size` blocks in all. */
  datatype Layout = Layout(start: int, size: int)

  type Disk = seq<Block>

  ghost predicate InLog(L: Layout, b: int) { L.start <= b < L.start + L.size }

  /** The log area is on the disk and its header block has room for the entries of a full log. */
  ghost predicate Fits(L: Layout, d: Disk) {
    0 <= L.start && 0 < L.size && L.start + L.size <= |d| && |d[L.start]| >= L.size
  }

  function Count(L: Layout, d: Disk): int
    requires 0 <= L.start < |d| && |d[L.start]| > 0
  {
    d[L.start][0]
  }

  /** The home block numbers in a header block with n entries. */
  function Homes(h: Block, n: nat): (r: seq<int>)
    requires n < |h|
    ensures |r| == n
  {
    h[1..n + 1]
  }

  /** Home blocks are on the disk and outside the log. */
  ghost predicate HomesOk(L: Layout, size: nat, bl: seq<int>) {
    |bl| < L.size && forall i :: 0 <= i < |bl| ==> 0 <= bl[i] < size && !InLog(L, bl[i])
  }

  /** A disk a recovery can start from. */
  ghost predicate Recoverable(L: Layout, d: Disk) {
    Fits(L, d) && 0 <= Count(L, d) < L.size && HomesOk(L, |d|, Homes(d[L.start], Count(L, d)))
  }

  /** d with the first k logged blocks copied home: install_trans() after k turns. */
  ghost function Installed(L: Layout, d: Disk, bl: seq<int>, k: nat): (e: Disk)
    requires Fits(L, d) && HomesOk(L, |d|, bl) && k <= |bl|
    ensures |e| == |d| && forall b :: InLog(L, b) ==> e[b] == d[b]
  {
    if k == 0 then d else Installed(L, d, bl, k - 1)[bl[k - 1] := d[L.start + k]]
  }

  /** d with a header that has no entries: write_head() with n == 0. */
  ghost function Cleared(L: Layout, d: Disk): (e: Disk)
    requires Fits(L, d)
    ensures |e| == |d| && Fits(L, e) && Count(L, e) == 0
    ensures forall b :: 0 <= b < |d| && b != L.start ==> e[b] == d[b]
  {
    d[L.start := d[L.start][0 := 0]]
  }

  ghost function Entries(L: Layout, d: Disk): seq<int>
    requires Recoverable(L, d)
  {
    Homes(d[L.start], Count(L, d))
  }

  /** recover_from_log() run to its end. */
  ghost function Recovered(L: Layout, d: Disk): Disk
    requires Recoverable(L, d)
  {
    Cleared(L, Installed(L, d, Entries(L, d), |Entries(L, d)|))
  }

  /** e is the disk after some of the writes of a recovery from d. */
  ghost predicate RecoveryState(L: Layout, d: Disk, e: Disk)
    requires Recoverable(L, d)
  {
    e == Recovered(L, d) || exists k :: 0 <= k <= |Entries(L, d)| && e == Installed(L, d, Entries(L, d), k)
  }

  /** The two disks agree outside the log. */
  ghost predicate SameHome(L: Layout, d: Disk, e: Disk) {
    |d| == |e| && forall b :: 0 <= b < |d| && !InLog(L, b) ==> d[b] == e[b]
  }

  // ---------------------------------------------------------------- recovery

  /** The last of the first k entries that is block b, or -1. */
  ghost function LastEntry(bl: seq<int>, k: nat, b: int): (r: int)
    requires k <= |bl|
    ensures -1 <= r < k
  {
    if k == 0 then -1 else if bl[k - 1] == b then k - 1 else LastEntry(bl, k - 1, b)
  }

  lemma {:induction false} InstalledAt(L: Layout, d: Disk, bl: seq<int>, k: nat, b: int)
    requires Fits(L, d) && HomesOk(L, |d|, bl) && k <= |bl| && 0 <= b < |d|
    ensures var j := LastEntry(bl, k, b); Installed(L, d, bl, k)[b] == if j == -1 then d[b] else d[L.start + 1 + j]
  {
    if k > 0 { InstalledAt(L, d, bl, k - 1, b); }
  }

  lemma {:induction false} LastEntryGrows(bl: seq<int>, k: nat, n: nat, b: int)
    requires k <= n <= |bl|
    ensures LastEntry(bl, n, b) == -1 ==> LastEntry(bl, k, b) == -1
    decreases n
  {
    if k < n { LastEntryGrows(bl, k, n - 1, b); }
  }

  /** Installing everything again over a partial install makes no difference. */
  lemma {:induction false} InstallAgain(L: Layout, d: Disk, bl: seq<int>, k: nat)
    requires Fits(L, d) && HomesOk(L, |d|, bl) && k <= |bl|
    ensures Fits(L, Installed(L, d, bl, k))
    ensures Installed(L, Installed(L, d, bl, k), bl, |bl|) == Installed(L, d, bl, |bl|)
  {
    var e := Installed(L, d, bl, k);
    assert InLog(L, L.start);
    forall b | 0 <= b < |d| ensures Installed(L, e, bl, |bl|)[b] == Installed(L, d, bl, |bl|)[b] {
      InstalledAt(L, d, bl, |bl|, b);
      InstalledAt(L, e, bl, |bl|, b);
      InstalledAt(L, d, bl, k, b);
      LastEntryGrows(bl, k, |bl|, b);
      var j := LastEntry(bl, |bl|, b);
      assert j != -1 ==> InLog(L, L.start + 1 + j);
    }
  }

  /** A recovery that was cut off anywhere, started again, gives what it would have given. */
  lemma {:induction false} RecoverAgain(L: Layout, d: Disk, e: Disk)
    requires Recoverable(L, d) && RecoveryState(L, d, e)
    ensures Recoverable(L, e) && SameHome(L, Recovered(L, e), Recovered(L, d))
  {
    var bl := Entries(L, d);
    if e == Recovered(L, d) {
      assert Entries(L, e) == [];
    } else {
      var k :| 0 <= k <= |bl| && e == Installed(L, d, bl, k);
      assert InLog(L, L.start);
      assert e[L.start] == d[L.start];
      InstallAgain(L, d, bl, k);
    }
  }

  /** Each disk of cs is left by a recovery from the one before that was cut off somewhere. */
  ghost predicate RecoveryChain(L: Layout, cs: seq<Disk>) {
    |cs| > 0 && forall i :: 0 <= i < |cs| - 1 ==> Recoverable(L, cs[i]) && RecoveryState(L, cs[i], cs[i + 1])
  }

  lemma {:induction false} RecoverChain(L: Layout, cs: seq<Disk>, i: nat)
    requires RecoveryChain(L, cs) && Recoverable(L, cs[0]) && i < |cs|
    ensures Recoverable(L, cs[i]) && SameHome(L, Recovered(L, cs[i]), Recovered(L, cs[0]))
  {
    if i > 0 {
      RecoverChain(L, cs, i - 1);
      RecoverAgain(L, cs[i - 1], cs[i]);
    }
  }

  // ---------------------------------------------------------------- commit

  /** d with the first k blocks of a transaction copied into the log: write_log() after k turns. */
  ghost function Logged(L: Layout, d: Disk, data: seq<Block>, k: nat): (e: Disk)
    requires Fits(L, d) && |data| < L.size && k <= |data|
    ensures |e| == |d| && Fits(L, e) && e[L.start] == d[L.start] && SameHome(L, e, d)
    ensures forall i :: 0 <= i < k ==> e[L.start + 1 + i] == data[i]
  {
    if k == 0 then d else Logged(L, d, data, k - 1)[L.start + k := data[k - 1]]
  }

  /** A header block with these entries; the words behind them keep their old values. */
  function Header(h: Block, bl: seq<int>): (r: Block)
    requires |bl| < |h|
    ensures |r| == |h| && r[0] == |bl| && Homes(r, |bl|) == bl
  {
    [|bl|] + bl + h[|bl| + 1..]
  }

  /** d with that header: write_head(), the point of commit. */
  ghost function Headed(L: Layout, d: Disk, bl: seq<int>): (e: Disk)
    requires Fits(L, d) && |bl| < L.size
    ensures |e| == |d| && Fits(L, e) && SameHome(L, e, d)
  {
    d[L.start := Header(d[L.start], bl)]
  }

  /** d with the whole transaction applied to the home blocks. */
  ghost function Applied(d: Disk, bl: seq<int>, data: seq<Block>, k: nat): (e: Disk)
    requires |bl| == |data| && k <= |bl| && forall i :: 0 <= i < |bl| ==> 0 <= bl[i] < |d|
    ensures |e| == |d|
  {
    if k == 0 then d else Applied(d, bl, data, k - 1)[bl[k - 1] := data[k - 1]]
  }

  ghost predicate Transaction(L: Layout, d: Disk, bl: seq<int>, data: seq<Block>) {
    Fits(L, d) && |bl| == |data| && HomesOk(L, |d|, bl)
  }

  /** The disk when commit() has written the header. */
  ghost function Committed(L: Layout, d: Disk, bl: seq<int>, data: seq<Block>): Disk
    requires Transaction(L, d, bl, data)
  {
    Headed(L, Logged(L, d, data, |bl|), bl)
  }

  /** The disk after the first t writes of commit(): the log blocks, the header, the home blocks, the empty header. */
  ghost function CommitState(L: Layout, d: Disk, bl: seq<int>, data: seq<Block>, t: nat): Disk
    requires Transaction(L, d, bl, data) && t <= 2 * |bl| + 2
  {
    var n := |bl|;
    if t <= n then Logged(L, d, data, t)
    else if t <= 2 * n + 1 then Installed(L, Committed(L, d, bl, data), bl, t - n - 1)
    else Cleared(L, Installed(L, Committed(L, d, bl, data), bl, n))
  }

  /** The disks commit() leaves after each of its first t writes. */
  ghost function CommitTrace(L: Layout, d: Disk, bl: seq<int>, data: seq<Block>, t: nat): seq<Disk>
    requires Transaction(L, d, bl, data) && t <= 2 * |bl| + 2
  {
    if t == 0 then [] else CommitTrace(L, d, bl, data, t - 1) + [CommitState(L, d, bl, data, t)]
  }

  lemma {:induction false} CommitTraceAt(L: Layout, d: Disk, bl: seq<int>, data: seq<Block>, t: nat, i: nat)
    requires Transaction(L, d, bl, data) && t <= 2 * |bl| + 2 && i < t
    ensures |CommitTrace(L, d, bl, data, t)| == t && CommitTrace(L, d, bl, data, t)[i] == CommitState(L, d, bl, data, i + 1)
  {
    hide CommitState, Transaction;
    if i < t - 1 { CommitTraceAt(L, d, bl, data, t - 1, i); } else if t > 1 { CommitTraceAt(L, d, bl, data, t - 1, 0); }
  }

  /** The disks install_trans() leaves after each of its first k turns. */
  ghost function InstallTrace(L: Layout, d: Disk, bl: seq<int>, k: nat): seq<Disk>
    requires Fits(L, d) && HomesOk(L, |d|, bl) && k <= |bl|
  {
    if k == 0 then [] else InstallTrace(L, d, bl, k - 1) + [Installed(L, d, bl, k)]
  }

  lemma {:induction false} InstallTraceAt(L: Layout, d: Disk, bl: seq<int>, k: nat, i: nat)
    requires Fits(L, d) && HomesOk(L, |d|, bl) && i < k <= |bl|
    ensures |InstallTrace(L, d, bl, k)| == k && InstallTrace(L, d, bl, k)[i] == Installed(L, d, bl, i + 1)
  {
    if i < k - 1 { InstallTraceAt(L, d, bl, k - 1, i); } else if k > 1 { InstallTraceAt(L, d, bl, k - 1, 0); }
  }

  /** commit()'s writes after its header write are those of install_trans() on the committed disk. */
  lemma {:induction false} CommitInstalls(L: Layout, d: Disk, bl: seq<int>, data: seq<Block>, k: nat)
    requires Transaction(L, d, bl, data) && k <= |bl|
    ensures var c := Committed(L, d, bl, data);
            && CommitState(L, d, bl, data, |bl| + 1 + k) == Installed(L, c, bl, k)
            && CommitTrace(L, d, bl, data, |bl| + 1 + k) == CommitTrace(L, d, bl, data, |bl| + 1) + InstallTrace(L, c, bl, k)
  {
    hide Committed, Headed, Logged;
    if k > 0 { CommitInstalls(L, d, bl, data, k - 1); }
  }

  lemma {:induction false} ClearedIsHeaded(L: Layout, d: Disk)
    requires Fits(L, d)
    ensures Headed(L, d, []) == Cleared(L, d)
  {
    assert Header(d[L.start], []) == d[L.start][0 := 0];
  }

  lemma {:induction false} CommittedRecoverable(L: Layout, d: Disk, bl: seq<int>, data: seq<Block>)
    requires Transaction(L, d, bl, data)
    ensures var c := Committed(L, d, bl, data); Recoverable(L, c) && Entries(L, c) == bl && |c| == |d|
  {
  }

  lemma {:induction false} AppliedAt(d: Disk, bl: seq<int>, data: seq<Block>, k: nat, b: int)
    requires |bl| == |data| && k <= |bl| && 0 <= b < |d| && forall i :: 0 <= i < |bl| ==> 0 <= bl[i] < |d|
    ensures var j := LastEntry(bl, k, b); Applied(d, bl, data, k)[b] == if j == -1 then d[b] else data[j]
  {
    if k > 0 { AppliedAt(d, bl, data, k - 1, b); }
  }

  /** Recovering a committed log applies the whole transaction. */
  lemma {:induction false} CommittedApplies(L: Layout, d: Disk, bl: seq<int>, data: seq<Block>)
    requires Transaction(L, d, bl, data)
    ensures Recoverable(L, Committed(L, d, bl, data))
    ensures SameHome(L, Recovered(L, Committed(L, d, bl, data)), Applied(d, bl, data, |bl|))
  {
    CommittedRecoverable(L, d, bl, data);
    var c := Committed(L, d, bl, data);
    forall b | 0 <= b < |d| && !InLog(L, b) ensures Installed(L, c, bl, |bl|)[b] == Applied(d, bl, data, |bl|)[b] {
      InstalledAt(L, c, bl, |bl|, b);
      AppliedAt(d, bl, data, |bl|, b);
    }
  }

  /** Before the header is written a recovery gives the old home blocks, from then on the new ones. */
  lemma {:induction false} CommitStateRecovers(L: Layout, d: Disk, bl: seq<int>, data: seq<Block>, t: nat)
    requires Transaction(L, d, bl, data) && Count(L, d) == 0 && t <= 2 * |bl| + 2
    ensures var c := CommitState(L, d, bl, data, t);
            Recoverable(L, c) && SameHome(L, Recovered(L, c), if t <= |bl| then d else Applied(d, bl, data, |bl|))
  {
    var c := CommitState(L, d, bl, data, t);
    if t <= |bl| {
      assert Entries(L, c) == [];
    } else {
      CommittedRecoverable(L, d, bl, data);
      CommittedApplies(L, d, bl, data);
      assert RecoveryState(L, Committed(L, d, bl, data), c);
      RecoverAgain(L, Committed(L, d, bl, data), c);
    }
  }

  /** Crash atomicity.  The machine stops after any number t of commit()'s writes; any number of recoveries follow, each
      cut off anywhere; then one runs to its end.  The home blocks are the old ones if the header had not been written,
      else the old ones with the whole transaction applied. */
  lemma {:induction false} CrashAtomicity(L: Layout, d: Disk, bl: seq<int>, data: seq<Block>, t: nat, cs: seq<Disk>)
    requires Transaction(L, d, bl, data) && Count(L, d) == 0 && t <= 2 * |bl| + 2
    requires RecoveryChain(L, cs) && cs[0] == CommitState(L, d, bl, data, t)
    ensures var last := cs[|cs| - 1];
            Recoverable(L, last) && SameHome(L, Recovered(L, last), if t <= |bl| then d else Applied(d, bl, data, |bl|))
  {
    CommitStateRecovers(L, d, bl, data, t);
    RecoverChain(L, cs, |cs| - 1);
  }

  // ---------------------------------------------------------------- many transactions

  /** Disks left by the writes of one transaction: from each of them a recovery gives the home blocks of before for the first
      n, and of after from then on. */
  ghost predicate Atomic(L: Layout, ds: seq<Disk>, n: nat, before: Disk, after: Disk) {
    forall i :: 0 <= i < |ds| ==> Recoverable(L, ds[i]) && SameHome(L, Recovered(L, ds[i]), if i < n then before else after)
  }

  /** Every prefix of commit()'s writes is atomic; the header write, number |bl|, decides. */
  lemma {:induction false} CommitAtomic(L: Layout, d: Disk, bl: seq<int>, data: seq<Block>, t: nat, after: Disk)
    requires Transaction(L, d, bl, data) && Count(L, d) == 0 && t <= 2 * |bl| + 2
    requires SameHome(L, Applied(d, bl, data, |bl|), after)
    ensures Atomic(L, CommitTrace(L, d, bl, data, t), |bl|, d, after) && |CommitTrace(L, d, bl, data, t)| == t
  {
    hide Recoverable, Recovered, CommitTrace, CommitState, Applied, Transaction;
    var ds := CommitTrace(L, d, bl, data, t);
    CommitTraceLen(L, d, bl, data, t);
    forall i | 0 <= i < |ds|
      ensures Recoverable(L, ds[i]) && SameHome(L, Recovered(L, ds[i]), if i < |bl| then d else after)
    {
      CommitTraceAt(L, d, bl, data, t, i);
      CommitStateRecovers(L, d, bl, data, i + 1);
    }
  }

  lemma {:induction false} CommitTraceLen(L: Layout, d: Disk, bl: seq<int>, data: seq<Block>, t: nat)
    requires Transaction(L, d, bl, data) && t <= 2 * |bl| + 2
    ensures |CommitTrace(L, d, bl, data, t)| == t
  {
    if t > 0 { CommitTraceAt(L, d, bl, data, t, 0); } else { assert CommitTrace(L, d, bl, data, 0) == []; }
  }

  /** ds are the disks after each write so far, commits the home blocks after each transaction, the first being those of
      boot.  From ds[i] a recovery gives the home blocks of commits[epoch[i]]; a later write never belongs to an earlier
      transaction, and none is skipped. */
  ghost predicate History(L: Layout, ds: seq<Disk>, epoch: seq<nat>, commits: seq<Disk>) {
    && |epoch| == |ds|
    && (forall i :: 0 <= i < |ds| ==>
      epoch[i] < |commits| && Recoverable(L, ds[i]) && SameHome(L, Recovered(L, ds[i]), commits[epoch[i]]))
    && (forall i :: 0 < i < |epoch| ==> epoch[i - 1] <= epoch[i] <= epoch[i - 1] + 1)
  }

  /** Between transactions the disk has the home blocks of the last one. */
  ghost predicate Current(L: Layout, epoch: seq<nat>, commits: seq<Disk>, d: Disk) {
    && commits != [] && SameHome(L, commits[|commits| - 1], d)
    && (epoch != [] ==> epoch[|epoch| - 1] == |commits| - 1)
  }

  /** The epochs of n writes before the header write of transaction e and of the others up to t. */
  ghost function Epochs(e: nat, n: nat, t: nat): (r: seq<nat>)
    ensures |r| == t
  {
    seq(t, i => if i < n then e else e + 1)
  }

  /** A whole transaction is added to the history. */
  lemma {:induction false} HistoryGrows(L: Layout, ds: seq<Disk>, epoch: seq<nat>, commits: seq<Disk>, d: Disk,
                                        ds': seq<Disk>, n: nat, after: Disk)
    requires History(L, ds, epoch, commits) && Current(L, epoch, commits, d) && n < |ds'|
    requires Atomic(L, ds', n, d, after)
    ensures var epoch' := epoch + Epochs(|commits| - 1, n, |ds'|);
            && History(L, ds + ds', epoch', commits + [after])
            && forall e :: SameHome(L, after, e) ==> Current(L, epoch', commits + [after], e)
  {
    hide Recoverable, Recovered;
    var epoch', ds2, commits' := epoch + Epochs(|commits| - 1, n, |ds'|), ds + ds', commits + [after];
    forall i | 0 <= i < |ds2|
      ensures epoch'[i] < |commits'| && Recoverable(L, ds2[i]) && SameHome(L, Recovered(L, ds2[i]), commits'[epoch'[i]])
    {
      if i >= |ds| { assert ds2[i] == ds'[i - |ds|]; }
    }
  }

  /** A recovery, cut off or not, starts a history. */
  lemma {:induction false} HistoryStarts(L: Layout, d: Disk, ds: seq<Disk>, e: Disk)
    requires Recoverable(L, d) && (forall i :: 0 <= i < |ds| ==> RecoveryState(L, d, ds[i])) && e == Recovered(L, d)
    ensures History(L, ds, seq(|ds|, _ => 0), [e]) && Current(L, seq(|ds|, _ => 0), [e], e)
  {
    hide Recoverable, Recovered, RecoveryState;
    forall i | 0 <= i < |ds| ensures Recoverable(L, ds[i]) && SameHome(L, Recovered(L, ds[i]), e) { RecoverAgain(L, d, ds[i]); }
  }

  /** The machine stops after any write of any run; any number of recoveries follow, each cut off anywhere; then one runs to
      its end.  The home blocks are those of the transaction to which that write belongs. */
  lemma {:induction false} CrashAnywhere(L: Layout, ds: seq<Disk>, epoch: seq<nat>, commits: seq<Disk>, i: nat, cs: seq<Disk>)
    requires History(L, ds, epoch, commits) && i < |ds| && RecoveryChain(L, cs) && cs[0] == ds[i]
    ensures var last := cs[|cs| - 1]; Recoverable(L, last) && SameHome(L, Recovered(L, last), commits[epoch[i]])
  {
    hide Recoverable, Recovered, RecoveryState;
    RecoverChain(L, cs, |cs| - 1);
  }
}
