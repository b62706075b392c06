/** filewrite() of file.c over the log of log.c: what a crash leaves of a file. */
module FileCrash {
  import opened Counting
  import opened BlockCodec
  import opened Inodes
  import opened InodeLayer
  import opened FileIo
  import opened LogFormat
  import opened WriteAheadLog

  /** The disk of a state.  The inode area has the inodes, block by block, in any encoding. */
  ghost function Image(enc: seq<Inode> -> Bytes, ipb: nat, inodestart: nat, s: Snapshot): (d: Disk)
    ensures |d| == |s.blocks|
  {
    seq(|s.blocks|, b requires 0 <= b < |s.blocks| =>
      if b >= inodestart && (b - inodestart) * ipb < |s.inodes| then enc(InodeBlock(s.inodes, ipb, b - inodestart)) else s.blocks[b])
  }

  /** A transaction changes the disk in the blocks that it logged and in no other. */
  lemma {:induction false} ImageChanges(enc: seq<Inode> -> Bytes, ipb: nat, inodestart: nat, s: Snapshot, s': Snapshot, lg: set<int>, ops: nat, b: int)
    requires Transacts(ipb, inodestart, s, s', lg, ops) && 0 <= b < |s.blocks| && b !in lg
    ensures |s'.blocks| == |s.blocks| && Image(enc, ipb, inodestart, s')[b] == Image(enc, ipb, inodestart, s)[b]
  {
    hide InodeBlock;
    if b >= inodestart {
      var q: nat := b - inodestart;
      assert InodeBlock(s'.inodes, ipb, q) == InodeBlock(s.inodes, ipb, q);
    }
  }

  /** Applying the logged blocks of v to a disk that agrees with v in the others gives v. */
  lemma {:induction false} AppliedHome(L: Layout, d: Disk, v: Disk, bl: seq<int>)
    requires |d| == |v| && HomesOk(L, |d|, bl)
    requires forall b :: 0 <= b < |d| && !InLog(L, b) && b !in Elems(bl) ==> d[b] == v[b]
    ensures SameHome(L, Applied(d, bl, Data(v, bl), |bl|), v)
  {
    forall b | 0 <= b < |d| && !InLog(L, b) ensures Applied(d, bl, Data(v, bl), |bl|)[b] == v[b] {
      AppliedAt(d, bl, Data(v, bl), |bl|, b);
      LastEntryFinds(bl, |bl|, b);
    }
  }

  /** One transaction from s to s': the machine stops after any number t of its commit's writes, any number of recoveries follow,
      each cut off anywhere, then one runs to its end.  The disk is that of s before the header is written, and that of s' from
      then on. */
  lemma {:induction false} TransactionCrash(L: Layout, enc: seq<Inode> -> Bytes, ipb: nat, inodestart: nat, s: Snapshot, s': Snapshot, lg: set<int>, ops: nat,
                                            d: Disk, bl: seq<int>, t: nat, cs: seq<Disk>)
    requires Transacts(ipb, inodestart, s, s', lg, ops) && |s'.blocks| == |s.blocks|
    requires SameHome(L, d, Image(enc, ipb, inodestart, s)) && Fits(L, d) && Count(L, d) == 0
    requires HomesOk(L, |d|, bl) && Elems(bl) == lg && t <= 2 * |bl| + 2
    requires RecoveryChain(L, cs) && cs[0] == CommitState(L, d, bl, Data(Image(enc, ipb, inodestart, s'), bl), t)
    ensures var last := cs[|cs| - 1];
            Recoverable(L, last) && SameHome(L, Recovered(L, last), Image(enc, ipb, inodestart, if t <= |bl| then s else s'))
  {
    hide Image, Recoverable, Recovered, RecoveryState, CommitState, Transacts, Applied, Data, Elems;
    var v, v' := Image(enc, ipb, inodestart, s), Image(enc, ipb, inodestart, s');
    forall b | 0 <= b < |d| && !InLog(L, b) && b !in Elems(bl) ensures d[b] == v'[b] {
      ImageChanges(enc, ipb, inodestart, s, s', lg, ops, b);
    }
    AppliedHome(L, d, v', bl);
    CrashAtomicity(L, d, bl, Data(v', bl), t, cs);
  }

  /** A crash in the commit of any chunk of a filewrite() leaves the old file with the first chunks of src, whole ones, and every
      other file as it was. */
  lemma {:induction false} FilewriteCrash(L: Layout, enc: seq<Inode> -> Bytes, G: Geometry, ipb: nat, inodestart: nat, ss: seq<Snapshot>, logs: seq<set<int>>,
                                          i: int, off: nat, src: seq<int>, max: nat, ops: nat, k: nat, d: Disk, bl: seq<int>, t: nat, cs: seq<Disk>)
    requires Chunks(G, ipb, inodestart, ss, logs, i, off, src, max, ops) && k < |logs|
    requires SameHome(L, d, Image(enc, ipb, inodestart, ss[k])) && Fits(L, d) && Count(L, d) == 0
    requires HomesOk(L, |d|, bl) && Elems(bl) == logs[k] && t <= 2 * |bl| + 2 && |ss[k + 1].blocks| == |d|
    requires RecoveryChain(L, cs) && cs[0] == CommitState(L, d, bl, Data(Image(enc, ipb, inodestart, ss[k + 1]), bl), t)
    ensures var last, j := cs[|cs| - 1], if t <= |bl| then k else k + 1;
            && Recoverable(L, last) && SameHome(L, Recovered(L, last), Image(enc, ipb, inodestart, ss[j]))
            && Chunked(G, ss[0].blocks, ss[0].inodes, ss[j].blocks, ss[j].inodes, i, off, src, Min(j * max, |src|))
  {
    hide Image, Recoverable, Recovered, RecoveryState, CommitState, Transacts, Chunked, Data, Elems;
    TransactionCrash(L, enc, ipb, inodestart, ss[k], ss[k + 1], logs[k], ops, d, bl, t, cs);
  }
}
