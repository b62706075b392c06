/** readi(), writei() and filewrite() of fs.c and file.c: a file is a sequence of
    bytes, and one chunk of a write fits into one transaction of the log. */
module FileIo {
  import opened Arith
  import opened Counting
  import opened BlockCodec
  import opened Inodes
  import opened InodeLayer
  import opened FileBytes

  /** panic() stops the kernel. */
  datatype Outcome = Returned(value: int) | Panicked

  const UINT := 0x1_0000_0000

  ghost predicate AllHoleFree(G: Geometry, bs: seq<Bytes>, ins: seq<Inode>) {
    forall j :: 0 <= j < |ins| ==> HoleFree(G, bs, ins[j])
  }

  /** The state between system calls: no file has a hole, and the inodes are on disk as they are in memory. */
  ghost predicate Consistent(fs: FileSystem)
    reads fs, fs.blocks, fs.inodes, fs.dinodes
  {
    && fs.Valid() && fs.pend == {} && fs.ipb > 0 && fs.dinodes != fs.inodes
    && fs.dinodes[..] == fs.inodes[..] && AllHoleFree(fs.G, fs.blocks[..], fs.inodes[..])
  }

  function Min(a: int, b: int): int { if a < b then a else b }

  /** The slot of byte off, and the slot after the last one that n bytes at off touch. */
  function FirstSlot(G: Geometry, off: nat): nat
    requires G.bsize > 0
  {
    DivNonNeg(off, G.bsize);
    off / G.bsize
  }

  function EndSlot(G: Geometry, off: nat, n: nat): nat
    requires G.bsize > 0
  {
    if n == 0 then FirstSlot(G, off) else FirstSlot(G, off + n - 1) + 1
  }

  /** What writing to slot bn logs: the data block, its bitmap block if it is new, and the indirect block with its own. */
  ghost predicate LogGrew(G: Geometry, lg: set<int>, lg': set<int>, a: int, isNew: bool, ind: int) {
    G.bsize > 0 && a > 0 && lg <= lg' <= lg + ({a} + (if isNew then {G.BitBlock(a)} else {})) + IndirectLog(G, ind)
  }

  ghost function FreeCount(G: Geometry, bs: seq<Bytes>): nat {
    if G.Ok() && BlocksOk(G, bs) then |FreeBlocks(G, bs)| else 0
  }

  /** One iteration of writei() that wrote m bytes to slot bn. */
  ghost predicate Stepped(G: Geometry, bs: seq<Bytes>, ip: Inode, lg: set<int>, bs': seq<Bytes>, ip': Inode, lg': set<int>, bn: nat) {
    && Filled(G, bs, ip, bs', ip', bn) && |ip'.addrs| == G.ndirect + 1 && Recorded(bs, bs', lg')
    && FreeCount(G, bs') == FreeCount(G, bs) - Needs(G, bs, ip, bn)
    && LogGrew(G, lg, lg', Slot(G, bs', ip', bn), Slot(G, bs, ip, bn) == 0, ip'.addrs[G.ndirect])
    && (Slot(G, bs, ip, bn) != 0 ==> ip' == ip)
  }

  /** One iteration of writei(); -1 where bmap() panics. */
  method WriteOne(fs: FileSystem, i: int, off: nat, src: seq<int>, tot: nat, ghost bs0: seq<Bytes>, ghost ins0: seq<Inode>, bn: nat) returns (m: int)
    requires fs.Valid() && fs.pend == {} && |ins0| == fs.inodes.Length && 0 <= i < fs.inodes.Length && fs.G.bsize > 0
    requires Progress(fs.G, bs0, ins0, fs.blocks[..], fs.inodes[..], i, off, src, tot) && bn == (off + tot) / fs.G.bsize
    requires tot < |src| && off + |src| <= fs.G.Maxfile() * fs.G.bsize && AreBytes(src)
    modifies fs, fs.blocks, fs.inodes
    ensures fs.Valid() && fs.pend == {}
    ensures m == -1 <==> FreeCount(fs.G, old(fs.blocks[..])) < old(Needs(fs.G, fs.blocks[..], fs.inodes[i], bn))
    ensures m != -1 ==> m == Min(|src| - tot, fs.G.bsize - (off + tot) % fs.G.bsize)
    ensures m != -1 ==> Progress(fs.G, bs0, ins0, fs.blocks[..], fs.inodes[..], i, off, src, tot + m)
    ensures m != -1 ==> Stepped(fs.G, old(fs.blocks[..]), old(fs.inodes[i]), old(fs.logged), fs.blocks[..], fs.inodes[i], fs.logged, bn)
  {
    hide FsOk, FreeBlocks, Progress, Filled, Recorded, AllKept, Slot, AreBytes, Patched, BlocksOk;
    ghost var G, bs, ins, lg := fs.G, fs.blocks[..], fs.inodes[..], fs.logged;
    FsFacts(G, bs, ins, fs.ow, {});
    SlotBelow(G, off + tot, G.Maxfile() * G.bsize);
    var r := (off + tot) % fs.G.bsize;
    DivBounds(off + tot, G.bsize);
    var a := fs.Bmap(i, bn);
    if a == -1 { return -1; }
    ghost var bs1, ins1, lg1 := fs.blocks[..], fs.inodes[..], fs.logged;
    m := Min(|src| - tot, fs.G.bsize - r);
    ProgressMapped(G, bs0, ins0, bs, ins, bs1, ins1, i, off, src, tot);
    ProgressWritten(G, bs0, ins0, bs1, ins1, fs.ow, i, bn, r, off, src, tot, m);
    fs.blocks[a] := Patched(fs.blocks[a], r, src[tot..tot + m]);
    fs.logged := fs.logged + {a};
    FsFacts(G, fs.blocks[..], fs.inodes[..], fs.ow, {});
    FilledFrame(G, bs, ins[i], bs1, ins1[i], fs.blocks[..], ins1[i], bn);
    RecordedOne(bs, bs1, a, fs.blocks[a], lg1);
  }

  lemma {:induction false} FilledFrame(G: Geometry, bs: seq<Bytes>, ip: Inode, bs1: seq<Bytes>, ip1: Inode, bs2: seq<Bytes>, ip2: Inode, bn: nat)
    requires Filled(G, bs, ip, bs1, ip1, bn) && forall l :: 0 <= l <= G.Maxfile() ==> Slot(G, bs2, ip2, l) == Slot(G, bs1, ip1, l)
    ensures Filled(G, bs, ip, bs2, ip2, bn)
  {
    hide Slot;
  }

  lemma {:induction false} RecordedOne(bs: seq<Bytes>, bs1: seq<Bytes>, a: int, x: Bytes, lg: set<int>)
    requires Recorded(bs, bs1, lg) && 0 <= a < |bs1|
    ensures Recorded(bs, bs1[a := x], lg + {a})
  {
  }

  /** writei() is at slot cur of the slots lo to hi; D has the data blocks logged so far and the bitmap blocks of the new ones. */
  ghost predicate Account(G: Geometry, bs0: seq<Bytes>, ip0: Inode, lg0: set<int>, bs: seq<Bytes>, ip: Inode, lg: set<int>,
                          lo: nat, cur: nat, hi: nat, D: set<int>) {
    && G.bsize > 0 && lo <= cur <= hi <= G.Maxfile() && |ip.addrs| == G.ndirect + 1 && Recorded(bs0, bs, lg)
    && FreeCount(G, bs) + Needed(G, bs0, ip0, lo, hi) == FreeCount(G, bs0) + Needed(G, bs, ip, cur, hi)
    && lg0 <= lg <= lg0 + D + IndirectLog(G, ip.addrs[G.ndirect])
    && |D| + Empty(G, bs, ip, cur, hi) <= cur - lo + Empty(G, bs0, ip0, lo, hi)
  }

  lemma {:induction false} AccountStart(G: Geometry, bs: seq<Bytes>, ip: Inode, lg: set<int>, lo: nat, hi: nat)
    requires G.bsize > 0 && lo <= hi <= G.Maxfile() && |ip.addrs| == G.ndirect + 1
    ensures Account(G, bs, ip, lg, bs, ip, lg, lo, lo, hi, {})
  {
    hide Slot;
  }

  lemma {:induction false} IndirectGrows(G: Geometry, bs: seq<Bytes>, ip: Inode, bs': seq<Bytes>, ip': Inode, bn: nat)
    requires G.bsize > 0 && Filled(G, bs, ip, bs', ip', bn) && |ip.addrs| == |ip'.addrs| == G.ndirect + 1
    ensures IndirectLog(G, ip.addrs[G.ndirect]) <= IndirectLog(G, ip'.addrs[G.ndirect])
  {
    IndirectSlot(G, bs, ip, 0);
    IndirectSlot(G, bs', ip', 0);
    hide Slot;
  }

  lemma {:induction false} AccountStep(G: Geometry, bs0: seq<Bytes>, ip0: Inode, lg0: set<int>, bs: seq<Bytes>, ip: Inode, lg: set<int>,
                                       bs': seq<Bytes>, ip': Inode, lg': set<int>, lo: nat, cur: nat, hi: nat, D: set<int>)
      returns (D': set<int>)
    requires Account(G, bs0, ip0, lg0, bs, ip, lg, lo, cur, hi, D) && Stepped(G, bs, ip, lg, bs', ip', lg', cur) && cur < hi
    ensures Account(G, bs0, ip0, lg0, bs', ip', lg', lo, cur + 1, hi, D')
  {
    hide Slot, Recorded, FreeCount, Filled;
    var a := Slot(G, bs', ip', cur);
    NeededStep(G, bs, ip, bs', ip', cur, hi);
    IndirectGrows(G, bs, ip, bs', ip', cur);
    RecordedTrans(bs0, bs, bs', lg, lg');
    hide Empty, Needed, IndirectLog;
    var d := {a} + (if Slot(G, bs, ip, cur) == 0 then {G.BitBlock(a)} else {});
    UnionCard({a}, d - {a});
    D' := D + d;
    UnionCard(D, d);
  }

  /** Writing to the slots lo to cur filled these and, if it had to, the indirect one; the others are as before. */
  ghost predicate SlotsAfter(G: Geometry, bs0: seq<Bytes>, ip0: Inode, bs: seq<Bytes>, ip: Inode, lo: nat, cur: nat) {
    && (forall l :: 0 <= l < G.Maxfile() ==> if lo <= l < cur then Slot(G, bs, ip, l) != 0 else Slot(G, bs, ip, l) == Slot(G, bs0, ip0, l))
    && if lo < cur && cur > G.ndirect then Slot(G, bs, ip, G.Maxfile()) != 0
       else Slot(G, bs, ip, G.Maxfile()) == Slot(G, bs0, ip0, G.Maxfile())
  }

  lemma {:induction false} SlotsStart(G: Geometry, bs: seq<Bytes>, ip: Inode, lo: nat)
    ensures SlotsAfter(G, bs, ip, bs, ip, lo, lo)
  {
    hide Slot;
  }

  lemma {:induction false} SlotsStep(G: Geometry, bs0: seq<Bytes>, ip0: Inode, bs: seq<Bytes>, ip: Inode, lg: set<int>, bs': seq<Bytes>, ip': Inode, lg': set<int>,
                                     lo: nat, cur: nat)
    requires SlotsAfter(G, bs0, ip0, bs, ip, lo, cur) && Stepped(G, bs, ip, lg, bs', ip', lg', cur) && lo <= cur
    ensures SlotsAfter(G, bs0, ip0, bs', ip', lo, cur + 1)
  {
    hide Slot, Recorded, FreeCount, Needs;
  }

  lemma {:induction false} EmptySplit(G: Geometry, bs: seq<Bytes>, ip: Inode, lo: nat, mid: nat, hi: nat)
    requires lo <= mid <= hi
    ensures Empty(G, bs, ip, lo, hi) == Empty(G, bs, ip, lo, mid) + Empty(G, bs, ip, mid, hi)
    decreases mid - lo
  {
    hide Slot;
    if lo < mid { EmptySplit(G, bs, ip, lo + 1, mid, hi); }
  }

  /** What a write needs in all is what its first part needs and what the rest then needs; `next` is where the rest begins. */
  lemma {:induction false} NeededSplit(G: Geometry, bs0: seq<Bytes>, ip0: Inode, bs: seq<Bytes>, ip: Inode, lo: nat, mid: nat, next: nat, hi: nat)
    requires SlotsAfter(G, bs0, ip0, bs, ip, lo, mid) && lo < mid <= hi <= G.Maxfile() && mid - 1 <= next <= mid && next < hi
    ensures Needed(G, bs0, ip0, lo, hi) == Needed(G, bs0, ip0, lo, mid) + Needed(G, bs, ip, next, hi)
  {
    hide Slot;
    EmptySplit(G, bs0, ip0, lo, mid, hi);
    EmptySplit(G, bs, ip, next, mid, hi);
    EmptySame(G, bs0, ip0, bs, ip, mid, hi);
    assert next < mid ==> Slot(G, bs, ip, next) != 0 && Empty(G, bs, ip, next, mid) == Empty(G, bs, ip, mid, mid);
  }

  /** tot bytes of n at off end in slot cur. */
  ghost predicate AtSlot(G: Geometry, off: nat, n: nat, tot: nat, cur: nat)
    requires G.bsize > 0
  {
    tot <= n && cur == if tot < n then (off + tot) / G.bsize else EndSlot(G, off, n)
  }

  lemma {:induction false} SlotOf(b: nat, cur: nat, r: nat, x: nat)
    requires r < b && x == cur * b + r
    ensures x / b == cur
  {
    DivStep(cur, b, r);
  }

  lemma {:induction false} NextSlot(b: nat, cur: nat, r: nat, x: nat)
    requires r < b && x == cur * b + r
    ensures (x + (b - r)) / b == cur + 1
  {
    assert (cur + 1) * b == cur * b + b;
    SlotOf(b, cur + 1, 0, x + (b - r));
  }

  lemma {:induction false} AtSlotStep(G: Geometry, off: nat, n: nat, tot: nat, cur: nat)
    requires G.bsize > 0 && AtSlot(G, off, n, tot, cur) && tot < n
    ensures cur < EndSlot(G, off, n)
    ensures var m := Min(n - tot, G.bsize - (off + tot) % G.bsize); m > 0 && tot + m <= n && AtSlot(G, off, n, tot + m, cur + 1)
  {
    var b, x := G.bsize, off + tot;
    DivBounds(x, b);
    var r := x % b;
    DivMono(x, off + n - 1, b);
    if n - tot > b - r {
      NextSlot(b, cur, r, x);
    } else {
      SlotOf(b, cur, r + (n - tot) - 1, off + n - 1);
    }
  }

  lemma {:induction false} EndSlotBelow(G: Geometry, off: nat, n: nat)
    requires G.bsize > 0 && off + n <= G.Maxfile() * G.bsize
    ensures FirstSlot(G, off) <= EndSlot(G, off, n) <= G.Maxfile()
    ensures AtSlot(G, off, n, 0, FirstSlot(G, off))
  {
    DivBounds(off, G.bsize);
    DivBelow(off / G.bsize, G.bsize, G.Maxfile() + 1, off);
    if n > 0 {
      SlotBelow(G, off + n - 1, G.Maxfile() * G.bsize);
      MulStrict((off + n - 1) / G.bsize, off / G.bsize, G.bsize);
    }
  }

  lemma {:induction false} SizeCovered(G: Geometry, bs0: seq<Bytes>, ins0: seq<Inode>, bs: seq<Bytes>, ins: seq<Inode>, i: int, off: nat, src: seq<int>, tot: nat)
    requires Progress(G, bs0, ins0, bs, ins, i, off, src, tot) && |ins| == |ins0| && off + tot < ins0[i].size
    ensures G.bsize > 0 && 0 <= (off + tot) / G.bsize && Slot(G, bs, ins[i], (off + tot) / G.bsize) != 0
  {
    hide Slot, Wrote, OthersKept, Contents;
    DivBounds(off + tot, G.bsize);
  }

  /** The loop of writei(): it gets to the end if and only if there are enough free blocks. */
  method WriteLoop(fs: FileSystem, i: int, off: nat, src: seq<int>) returns (ok: bool, ghost D: set<int>)
    requires fs.Valid() && fs.pend == {} && 0 <= i < fs.inodes.Length && fs.G.bsize > 0 && HoleFree(fs.G, fs.blocks[..], fs.inodes[i])
    requires off <= fs.inodes[i].size && off + |src| <= fs.G.Maxfile() * fs.G.bsize && AreBytes(src)
    modifies fs, fs.blocks, fs.inodes
    ensures fs.Valid() && fs.pend == {}
    ensures ok <==> FreeCount(fs.G, old(fs.blocks[..])) >= old(Needed(fs.G, fs.blocks[..], fs.inodes[i], FirstSlot(fs.G, off), EndSlot(fs.G, off, |src|)))
    ensures ok ==> Progress(fs.G, old(fs.blocks[..]), old(fs.inodes[..]), fs.blocks[..], fs.inodes[..], i, off, src, |src|)
    ensures ok ==> Account(fs.G, old(fs.blocks[..]), old(fs.inodes[i]), old(fs.logged), fs.blocks[..], fs.inodes[i], fs.logged,
                           FirstSlot(fs.G, off), EndSlot(fs.G, off, |src|), EndSlot(fs.G, off, |src|), D)
    ensures ok ==> SlotsAfter(fs.G, old(fs.blocks[..]), old(fs.inodes[i]), fs.blocks[..], fs.inodes[i], FirstSlot(fs.G, off), EndSlot(fs.G, off, |src|))
    ensures ok && off + |src| <= old(fs.inodes[i].size) ==> fs.inodes[i] == old(fs.inodes[i])
  {
    hide FsOk, Progress, Account, Stepped, FreeCount, Slot, HoleFree, AtSlot, EndSlot, FirstSlot, SlotsAfter;
    ghost var G, bs0, ins0, lg0 := fs.G, fs.blocks[..], fs.inodes[..], fs.logged;
    FsFacts(G, bs0, ins0, fs.ow, {});
    EndSlotBelow(G, off, |src|);
    ghost var lo, hi := FirstSlot(G, off), EndSlot(G, off, |src|);
    ProgressStart(G, bs0, ins0, i, off, src);
    AccountStart(G, bs0, ins0[i], lg0, lo, hi);
    SlotsStart(G, bs0, ins0[i], lo);
    var tot := 0;
    ghost var cur := lo;
    D := {};
    while tot < |src|
      invariant 0 <= tot <= |src| && fs.Valid() && fs.pend == {} && lo <= cur && AtSlot(G, off, |src|, tot, cur)
      invariant Progress(G, bs0, ins0, fs.blocks[..], fs.inodes[..], i, off, src, tot)
      invariant Account(G, bs0, ins0[i], lg0, fs.blocks[..], fs.inodes[i], fs.logged, lo, cur, hi, D)
      invariant SlotsAfter(G, bs0, ins0[i], fs.blocks[..], fs.inodes[i], lo, cur)
      invariant off + tot <= ins0[i].size ==> fs.inodes[i] == ins0[i]
    {
      ghost var bs, ins, lg := fs.blocks[..], fs.inodes[..], fs.logged;
      AtSlotStep(G, off, |src|, tot, cur);
      AtSlotIs(G, off, |src|, tot, cur);
      AccountFails(G, bs0, ins0[i], lg0, bs, ins[i], lg, lo, cur, hi, D);
      if off + tot < ins0[i].size { SizeCovered(G, bs0, ins0, bs, ins, i, off, src, tot); }
      var m := WriteOne(fs, i, off, src, tot, bs0, ins0, (off + tot) / fs.G.bsize);
      if m == -1 { return false, {}; }
      SlotsStep(G, bs0, ins0[i], bs, ins[i], lg, fs.blocks[..], fs.inodes[i], fs.logged, lo, cur);
      SteppedSame(G, bs, ins[i], lg, fs.blocks[..], fs.inodes[i], fs.logged, cur);
      D := AccountStep(G, bs0, ins0[i], lg0, bs, ins[i], lg, fs.blocks[..], fs.inodes[i], fs.logged, lo, cur, hi, D);
      cur := cur + 1;
      tot := tot + m;
    }
    AtSlotIs(G, off, |src|, tot, cur);
    AccountEnd(G, bs0, ins0[i], lg0, fs.blocks[..], fs.inodes[i], fs.logged, lo, hi, D);
    ok := true;
  }

  lemma {:induction false} AtSlotIs(G: Geometry, off: nat, n: nat, tot: nat, cur: nat)
    requires G.bsize > 0 && AtSlot(G, off, n, tot, cur)
    ensures cur == if tot < n then (off + tot) / G.bsize else EndSlot(G, off, n)
  {
  }

  lemma {:induction false} AccountFails(G: Geometry, bs0: seq<Bytes>, ip0: Inode, lg0: set<int>, bs: seq<Bytes>, ip: Inode, lg: set<int>,
                                        lo: nat, cur: nat, hi: nat, D: set<int>)
    requires Account(G, bs0, ip0, lg0, bs, ip, lg, lo, cur, hi, D) && cur < hi
    ensures FreeCount(G, bs) < Needs(G, bs, ip, cur) ==> FreeCount(G, bs0) < Needed(G, bs0, ip0, lo, hi)
  {
    hide Slot;
  }

  lemma {:induction false} AccountEnd(G: Geometry, bs0: seq<Bytes>, ip0: Inode, lg0: set<int>, bs: seq<Bytes>, ip: Inode, lg: set<int>,
                                      lo: nat, hi: nat, D: set<int>)
    requires Account(G, bs0, ip0, lg0, bs, ip, lg, lo, hi, hi, D)
    ensures FreeCount(G, bs0) == FreeCount(G, bs) + Needed(G, bs0, ip0, lo, hi)
  {
    hide Slot;
  }

  lemma {:induction false} SteppedSame(G: Geometry, bs: seq<Bytes>, ip: Inode, lg: set<int>, bs': seq<Bytes>, ip': Inode, lg': set<int>, bn: nat)
    requires Stepped(G, bs, ip, lg, bs', ip', lg', bn)
    ensures Slot(G, bs, ip, bn) != 0 ==> ip' == ip
  {
    hide Slot;
  }

  // ---------------------------------------------------------------- writei

  /** What writei() does when it returns the number of bytes of src. */
  ghost predicate Written(G: Geometry, bs0: seq<Bytes>, ins0: seq<Inode>, lg0: set<int>, bs: seq<Bytes>, ins: seq<Inode>, lg: set<int>,
                          i: int, off: nat, src: seq<int>, ib: int)
  {
    && G.bsize > 0 && 0 <= i < |ins0| && OthersKept(G, bs0, ins0, bs, ins, i)
    && 0 <= off <= ins0[i].size && ins[i].size == Max(ins0[i].size, off + |src|) && ins[i].dev == ins0[i].dev
    && Contents(G, bs, ins[i]) == Spliced(Contents(G, bs0, ins0[i]), off, src)
    && lg0 <= lg && Recorded(bs0, bs, lg) && (ins[i] != ins0[i] ==> ib in lg)
    && SlotsAfter(G, bs0, ins0[i], bs, ins[i], FirstSlot(G, off), EndSlot(G, off, |src|))
    && FreeCount(G, bs) + Needed(G, bs0, ins0[i], FirstSlot(G, off), EndSlot(G, off, |src|)) == FreeCount(G, bs0)
    && |lg| <= |lg0| + (EndSlot(G, off, |src|) - FirstSlot(G, off)) + Empty(G, bs0, ins0[i], FirstSlot(G, off), EndSlot(G, off, |src|)) + 3
  }

  lemma {:induction false} OthersHoleFree(G: Geometry, bs0: seq<Bytes>, ins0: seq<Inode>, bs: seq<Bytes>, ins: seq<Inode>, i: int)
    requires G.bsize > 0 && 0 <= i < |ins0| && AllHoleFree(G, bs0, ins0) && OthersKept(G, bs0, ins0, bs, ins, i) && HoleFree(G, bs, ins[i])
    ensures AllHoleFree(G, bs, ins)
  {
    hide HoleFree, KeepsFile;
    forall j | 0 <= j < |ins| ensures HoleFree(G, bs, ins[j]) {
      if j != i { ContentsKept(G, bs0, ins0[j], bs, ins[j]); }
    }
  }

  lemma {:induction false} LoggedCard(G: Geometry, bs0: seq<Bytes>, ip0: Inode, lg0: set<int>, bs: seq<Bytes>, ip: Inode, lg: set<int>,
                                      lo: nat, hi: nat, D: set<int>, ib: int)
    requires Account(G, bs0, ip0, lg0, bs, ip, lg, lo, hi, hi, D)
    ensures |lg + {ib}| <= |lg0| + (hi - lo) + Empty(G, bs0, ip0, lo, hi) + 3 && |lg| <= |lg + {ib}|
    ensures lg0 <= lg && Recorded(bs0, bs, lg) && Recorded(bs0, bs, lg + {ib})
  {
    hide Slot, FreeCount;
    var E := IndirectLog(G, ip.addrs[G.ndirect]);
    UnionCard(lg, {ib});
    UnionCard(lg0 + D, E);
    UnionCard(lg0, D);
    SubsetCard(lg, lg0 + D + E);
    SubsetCard(lg, lg + {ib});
  }

  lemma {:induction false} SlotsResized(G: Geometry, bs0: seq<Bytes>, ip0: Inode, bs: seq<Bytes>, ip: Inode, size: int, lo: nat, cur: nat)
    requires SlotsAfter(G, bs0, ip0, bs, ip, lo, cur)
    ensures SlotsAfter(G, bs0, ip0, bs, ip.(size := size), lo, cur)
  {
    forall k: nat ensures Slot(G, bs, ip.(size := size), k) == Slot(G, bs, ip, k) {
    }
    hide Slot;
  }

  lemma {:induction false} WrittenFrom(G: Geometry, bs0: seq<Bytes>, ins0: seq<Inode>, lg0: set<int>, bs: seq<Bytes>, ins: seq<Inode>, lg: set<int>,
                                       i: int, off: nat, src: seq<int>, D: set<int>, ib: int)
    requires AllHoleFree(G, bs0, ins0) && Progress(G, bs0, ins0, bs, ins, i, off, src, |src|) && |ins| == |ins0|
    requires Account(G, bs0, ins0[i], lg0, bs, ins[i], lg, FirstSlot(G, off), EndSlot(G, off, |src|), EndSlot(G, off, |src|), D)
    requires SlotsAfter(G, bs0, ins0[i], bs, ins[i], FirstSlot(G, off), EndSlot(G, off, |src|))
    requires off + |src| <= ins0[i].size ==> ins[i] == ins0[i]
    ensures var grows := off + |src| > ins0[i].size;
            && var ins' := if grows then ins[i := ins[i].(size := off + |src|)] else ins;
            && Written(G, bs0, ins0, lg0, bs, ins', if grows then lg + {ib} else lg, i, off, src, ib)
            && AllHoleFree(G, bs, ins')
  {
    ProgressEnd(G, bs0, ins0, bs, ins, i, off, src);
    LoggedCard(G, bs0, ins0[i], lg0, bs, ins[i], lg, FirstSlot(G, off), EndSlot(G, off, |src|), D, ib);
    AccountEnd(G, bs0, ins0[i], lg0, bs, ins[i], lg, FirstSlot(G, off), EndSlot(G, off, |src|), D);
    var ip := ins[i].(size := Max(ins0[i].size, off + |src|));
    SlotsResized(G, bs0, ins0[i], bs, ins[i], ip.size, FirstSlot(G, off), EndSlot(G, off, |src|));
    var ins' := ins[i := ip];
    assert off + |src| <= ins0[i].size ==> ins' == ins;
    hide Wrote, Covered, KeepsFile, HoleFree, Contents, Recorded, EndSlot, FirstSlot, Account, Empty, Spliced, SlotsAfter, Needed, FreeCount;
    OthersResized(G, bs0, ins0, bs, ins, i, ip.size);
    OthersHoleFree(G, bs0, ins0, bs, ins', i);
  }

  /** writei(); `device` is what the write function of a device returns, -1 if there is none. */
  method Writei(fs: FileSystem, i: int, off: nat, src: seq<int>, device: int) returns (r: Outcome)
    requires Consistent(fs) && 0 <= i < fs.inodes.Length && off < UINT && |src| < UINT && AreBytes(src)
    modifies fs, fs.blocks, fs.inodes, fs.dinodes
    ensures r == WriteResult(fs.G, old(fs.blocks[..]), old(fs.inodes[i]), off, |src|, device)
    ensures old(fs.inodes[i].dev) || r == Returned(-1) ==>
      fs.blocks[..] == old(fs.blocks[..]) && fs.inodes[..] == old(fs.inodes[..]) && fs.logged == old(fs.logged)
    ensures r != Panicked ==> Consistent(fs)
    ensures !old(fs.inodes[i].dev) && r.Returned? && r != Returned(-1) ==>
      Written(fs.G, old(fs.blocks[..]), old(fs.inodes[..]), old(fs.logged), fs.blocks[..], fs.inodes[..], fs.logged, i, off, src, i / fs.ipb + fs.inodestart)
  {
    hide FsOk, AllHoleFree, HoleFree, Progress, Account, Needed, FreeCount, EndSlot, FirstSlot, Written, BlocksOk, Recorded, SlotsAfter;
    if fs.inodes[i].dev { return Returned(device); }
    if off > fs.inodes[i].size || (off + |src|) % UINT < off { return Returned(-1); }
    if off + |src| > fs.G.Maxfile() * fs.G.bsize { return Returned(-1); }
    ghost var bs0, ins0, lg0 := fs.blocks[..], fs.inodes[..], fs.logged;
    FsFacts(fs.G, bs0, ins0, fs.ow, {});
    HoleFreeAt(fs.G, bs0, ins0, i);
    var ok;
    ghost var D;
    ok, D := WriteLoop(fs, i, off, src);
    if !ok { return Panicked; }
    ghost var ins1 := fs.inodes[..];
    ProgressSize(fs.G, bs0, ins0, fs.blocks[..], ins1, i, off, src, |src|);
    WrittenFrom(fs.G, bs0, ins0, lg0, fs.blocks[..], ins1, fs.logged, i, off, src, D, i / fs.ipb + fs.inodestart);
    if |src| > 0 && off + |src| > fs.inodes[i].size {
      fs.inodes[i] := fs.inodes[i].(size := off + |src|);
      Resized(fs.G, fs.blocks[..], ins1, fs.ow, {}, i, off + |src|);
      fs.Iupdate(i);
    }
    r := Returned(|src|);
  }

  /** What writei() returns, by its arguments and the free blocks. */
  ghost function WriteResult(G: Geometry, bs: seq<Bytes>, ip: Inode, off: nat, n: nat, device: int): Outcome {
    if ip.dev then Returned(device)
    else if off > ip.size || off + n >= UINT || off + n > G.Maxfile() * G.bsize || G.bsize == 0 then Returned(-1)
    else if FreeCount(G, bs) < Needed(G, bs, ip, FirstSlot(G, off), EndSlot(G, off, n)) then Panicked
    else Returned(n)
  }

  lemma {:induction false} ProgressSize(G: Geometry, bs0: seq<Bytes>, ins0: seq<Inode>, bs: seq<Bytes>, ins: seq<Inode>, i: int, off: nat, src: seq<int>, tot: nat)
    requires Progress(G, bs0, ins0, bs, ins, i, off, src, tot)
    ensures |ins| == |ins0| && 0 <= i < |ins| && ins[i].size == ins0[i].size && forall j :: 0 <= j < |ins| && j != i ==> ins[j] == ins0[j]
  {
    hide KeepsFile, Covered, Wrote, Contents;
  }

  // ---------------------------------------------------------------- readi

  /** A block of the file is there and needs no allocation. */
  lemma {:induction false} NothingNeeded(G: Geometry, bs: seq<Bytes>, ip: Inode, p: nat)
    requires G.bsize > 0 && |ip.addrs| == G.ndirect + 1 && HoleFree(G, bs, ip) && p < ip.size
    ensures 0 <= p / G.bsize < G.Maxfile() && Slot(G, bs, ip, p / G.bsize) != 0 && Needs(G, bs, ip, p / G.bsize) == 0
  {
    SlotBelow(G, p, ip.size);
    IndirectSlot(G, bs, ip, p / G.bsize);
    hide Slot;
  }

  lemma {:induction false} InBlock(b: nat, p: nat, k: nat)
    requires b > 0 && p % b + k < b
    ensures (p + k) / b == p / b && (p + k) % b == p % b + k
  {
    DivBounds(p, b);
    DivStep(p / b, b, p % b + k);
  }

  lemma {:induction false} ReadStep(G: Geometry, bs: seq<Bytes>, ip: Inode, p: nat, m: nat, a: int)
    requires G.bsize > 0 && 0 <= p && p + m <= ip.size && p % G.bsize + m <= G.bsize && Slot(G, bs, ip, p / G.bsize) == a
    requires 0 <= a < |bs| && |bs[a]| == G.bsize
    ensures Contents(G, bs, ip)[p..p + m] == bs[a][p % G.bsize..p % G.bsize + m]
  {
    hide Slot, ByteAt;
    var r := p % G.bsize;
    var s, t := Contents(G, bs, ip)[p..p + m], bs[a][r..r + m];
    forall k | 0 <= k < m ensures s[k] == t[k] {
      InBlock(G.bsize, p, k);
      ByteIs(G, bs, ip, p + k, a);
    }
  }

  /** One iteration of readi(): at most n bytes from p on. */
  method ReadOne(fs: FileSystem, i: int, p: nat, n: nat) returns (s: seq<int>)
    requires fs.Valid() && fs.pend == {} && 0 <= i < fs.inodes.Length && fs.G.bsize > 0 && HoleFree(fs.G, fs.blocks[..], fs.inodes[i])
    requires n > 0 && p + n <= fs.inodes[i].size
    modifies fs, fs.blocks, fs.inodes
    ensures fs.Valid() && fs.pend == {}
    ensures fs.blocks[..] == old(fs.blocks[..]) && fs.inodes[..] == old(fs.inodes[..]) && fs.logged == old(fs.logged)
    ensures 0 < |s| <= n && s == Contents(fs.G, fs.blocks[..], fs.inodes[i])[p..p + |s|]
  {
    hide FsOk, HoleFree, Contents, Slot, Needs, FreeBlocks, Filled, Recorded, AllKept;
    ghost var G, bs, ins := fs.G, fs.blocks[..], fs.inodes[..];
    FsFacts(G, bs, ins, fs.ow, {});
    NothingNeeded(G, bs, ins[i], p);
    DivBounds(p, G.bsize);
    var bn, o := p / fs.G.bsize, p % fs.G.bsize;
    var a := fs.Bmap(i, bn);
    var m := Min(n, fs.G.bsize - o);
    assert SlotNo(G, |ins|, i, bn);
    SlotOwned(G, bs, ins, fs.ow, {}, i, bn);
    ReadStep(G, bs, ins[i], p, m, a);
    s := fs.blocks[a][o..o + m];
  }

  /** The loop of readi(). */
  method ReadLoop(fs: FileSystem, i: int, off: nat, n: nat) returns (dst: seq<int>)
    requires fs.Valid() && fs.pend == {} && 0 <= i < fs.inodes.Length && fs.G.bsize > 0 && HoleFree(fs.G, fs.blocks[..], fs.inodes[i])
    requires off + n <= fs.inodes[i].size
    modifies fs, fs.blocks, fs.inodes
    ensures fs.Valid() && fs.pend == {}
    ensures fs.blocks[..] == old(fs.blocks[..]) && fs.inodes[..] == old(fs.inodes[..]) && fs.logged == old(fs.logged)
    ensures dst == Contents(fs.G, fs.blocks[..], fs.inodes[i])[off..off + n]
  {
    hide FsOk, HoleFree, Contents;
    ghost var c := Contents(fs.G, fs.blocks[..], fs.inodes[i]);
    dst := [];
    var tot := 0;
    while tot < n
      invariant 0 <= tot <= n && fs.Valid() && fs.pend == {}
      invariant fs.blocks[..] == old(fs.blocks[..]) && fs.inodes[..] == old(fs.inodes[..]) && fs.logged == old(fs.logged)
      invariant dst == c[off..off + tot]
    {
      var s := ReadOne(fs, i, off + tot, n - tot);
      dst := dst + s;
      tot := tot + |s|;
    }
  }

  /** readi(); it returns the bytes of the file from off, allocates nothing and changes nothing. */
  method Readi(fs: FileSystem, i: int, off: nat, n: nat, device: int) returns (r: int, dst: seq<int>)
    requires Consistent(fs) && 0 <= i < fs.inodes.Length && off < UINT && n < UINT
    modifies fs, fs.blocks, fs.inodes
    ensures Consistent(fs) && fs.blocks[..] == old(fs.blocks[..]) && fs.inodes[..] == old(fs.inodes[..]) && fs.logged == old(fs.logged)
    ensures fs.inodes[i].dev ==> r == device
    ensures !fs.inodes[i].dev && (off > fs.inodes[i].size || off + n >= UINT) ==> r == -1 && dst == []
    ensures !fs.inodes[i].dev && off <= fs.inodes[i].size && off + n < UINT ==>
      r == Min(n, fs.inodes[i].size - off) && dst == Contents(fs.G, fs.blocks[..], fs.inodes[i])[off..off + r]
  {
    hide FsOk, HoleFree, Contents;
    dst := [];
    if fs.inodes[i].dev { return device, dst; }
    FsFacts(fs.G, fs.blocks[..], fs.inodes[..], fs.ow, {});
    HoleFreeAt(fs.G, fs.blocks[..], fs.inodes[..], i);
    if off > fs.inodes[i].size || (off + n) % UINT < off { return -1, dst; }
    var n' := if off + n > fs.inodes[i].size then fs.inodes[i].size - off else n;
    dst := ReadLoop(fs, i, off, n');
    r := n';
  }

  // ---------------------------------------------------------------- filewrite

  /** Blocks of data in one chunk of filewrite(), for transactions of at most `ops` blocks. */
  function ChunkBlocks(ops: nat): int { (ops - 1 - 1 - 2) / 2 }

  /** The chunk is the largest one whose data blocks, with a bitmap block each, leave four blocks of the transaction: for the
      inode, the indirect block, and two for a write that is not aligned. */
  lemma {:induction false} ChunkLargest(ops: nat, k: int)
    ensures 2 * k + 4 <= ops <==> k <= ChunkBlocks(ops)
  {
  }

  lemma {:induction false} SpanAligned(b: nat, off: nat, n: nat, k: nat)
    requires b > 0 && 0 < n <= k * b
    ensures (off + n - 1) / b + 1 - off / b <= if off % b == 0 then k else k + 1
  {
    DivBounds(off, b);
    DivBounds(off + n - 1, b);
    var q, e := off / b, (off + n - 1) / b;
    assert (q + k) * b == q * b + k * b;
    MulStrict(q + k, e, b);
    assert (e - (q + k)) * b == e * b - (q + k) * b;
  }

  /** Every chunk of filewrite() fits into one transaction, even if each allocation is in a different bitmap block. */
  lemma {:induction false} ChunkFits(G: Geometry, bs0: seq<Bytes>, ins0: seq<Inode>, bs: seq<Bytes>, ins: seq<Inode>, lg: set<int>, i: int, off: nat, src: seq<int>,
                                     ib: int, ops: nat)
    requires Written(G, bs0, ins0, {}, bs, ins, lg, i, off, src, ib) && HoleFree(G, bs0, ins0[i])
    requires ops >= 6 && 0 < |src| <= ChunkBlocks(ops) * G.bsize
    ensures |lg| <= ops
  {
    hide Contents, Spliced, OthersKept, Slot, Recorded;
    var k, lo, hi := ChunkBlocks(ops), FirstSlot(G, off), EndSlot(G, off, |src|);
    SpanAligned(G.bsize, off, |src|, k);
    DivBounds(off, G.bsize);
    DivMono(off, off + |src| - 1, G.bsize);
    assert off % G.bsize != 0 ==> Slot(G, bs0, ins0[i], lo) != 0;
    assert Empty(G, bs0, ins0[i], lo, hi) <= if Slot(G, bs0, ins0[i], lo) != 0 then hi - lo - 1 else hi - lo;
  }

  lemma {:induction false} SpliceTwice(c: seq<int>, off: nat, a: seq<int>, b: seq<int>)
    requires off <= |c|
    ensures |Spliced(c, off, a)| >= off + |a| && Spliced(Spliced(c, off, a), off + |a|, b) == Spliced(c, off, a + b)
  {
  }

  lemma {:induction false} WrittenFacts(G: Geometry, bs0: seq<Bytes>, ins0: seq<Inode>, lg0: set<int>, bs: seq<Bytes>, ins: seq<Inode>, lg: set<int>,
                                        i: int, off: nat, src: seq<int>, ib: int)
    requires Written(G, bs0, ins0, lg0, bs, ins, lg, i, off, src, ib)
    ensures |ins| == |ins0| && OthersKept(G, bs0, ins0, bs, ins, i) && ins[i].dev == ins0[i].dev && G.bsize > 0
    ensures 0 <= off <= ins0[i].size && ins[i].size == Max(ins0[i].size, off + |src|)
    ensures Contents(G, bs, ins[i]) == Spliced(Contents(G, bs0, ins0[i]), off, src)
    ensures SlotsAfter(G, bs0, ins0[i], bs, ins[i], FirstSlot(G, off), EndSlot(G, off, |src|))
    ensures FreeCount(G, bs) + Needed(G, bs0, ins0[i], FirstSlot(G, off), EndSlot(G, off, |src|)) == FreeCount(G, bs0)
  {
    hide Contents, Spliced, KeepsFile, Recorded, Empty, SlotsAfter, Needed, FreeCount;
  }

  /** The chunks of filewrite() so far wrote the first n bytes of src. */
  ghost predicate Chunked(G: Geometry, bs0: seq<Bytes>, ins0: seq<Inode>, bs: seq<Bytes>, ins: seq<Inode>, i: int, off: nat, src: seq<int>, n: int) {
    && G.bsize > 0 && 0 <= i < |ins0| && 0 <= n <= |src| && OthersKept(G, bs0, ins0, bs, ins, i) && ins[i].dev == ins0[i].dev && ins0[i].size >= 0
    && if n == 0 then ins[i] == ins0[i] && Contents(G, bs, ins[i]) == Contents(G, bs0, ins0[i])
       else off <= ins0[i].size && ins[i].size == Max(ins0[i].size, off + n) && Contents(G, bs, ins[i]) == Spliced(Contents(G, bs0, ins0[i]), off, src[..n])
  }

  lemma {:induction false} ChunkedStep(G: Geometry, bs0: seq<Bytes>, ins0: seq<Inode>, bs: seq<Bytes>, ins: seq<Inode>, bs': seq<Bytes>, ins': seq<Inode>,
                                       lg: set<int>, i: int, off: nat, src: seq<int>, n: int, m: nat, ib: int)
    requires Chunked(G, bs0, ins0, bs, ins, i, off, src, n) && 0 < m <= |src| - n
    requires Written(G, bs, ins, {}, bs', ins', lg, i, off + n, src[n..n + m], ib)
    ensures Chunked(G, bs0, ins0, bs', ins', i, off, src, n + m)
  {
    hide Contents, KeepsFile, Written, Spliced;
    WrittenFacts(G, bs, ins, {}, bs', ins', lg, i, off + n, src[n..n + m], ib);
    OthersTrans(G, bs0, ins0, bs, ins, bs', ins', i);
    var c := Contents(G, bs0, ins0[i]);
    assert src[..n + m] == src[..n] + src[n..n + m];
    if n > 0 {
      SpliceTwice(c, off, src[..n], src[n..n + m]);
    } else {
      assert src[0..m] == src[..m];
    }
  }

  /** After n of len bytes: the blocks that are free cover what is left of the write as they covered all of it. */
  ghost predicate Funds(G: Geometry, bs0: seq<Bytes>, ip0: Inode, bs: seq<Bytes>, ip: Inode, off: nat, n: nat, len: nat) {
    G.bsize > 0 && FreeCount(G, bs) + Needed(G, bs0, ip0, FirstSlot(G, off), EndSlot(G, off, len)) ==
                   FreeCount(G, bs0) + if n < len then Needed(G, bs, ip, FirstSlot(G, off + n), EndSlot(G, off, len)) else 0
  }

  lemma {:induction false} FundsStart(G: Geometry, bs: seq<Bytes>, ip: Inode, off: nat, len: nat)
    requires G.bsize > 0
    ensures Funds(G, bs, ip, bs, ip, off, 0, len)
  {
    hide Slot, FreeCount;
  }

  lemma {:induction false} SlotEdges(G: Geometry, x: nat, m: nat, e: nat)
    requires G.bsize > 0 && m > 0 && x + m < e
    ensures FirstSlot(G, x) < EndSlot(G, x, m) && EndSlot(G, x, m) - 1 <= FirstSlot(G, x + m) <= EndSlot(G, x, m)
    ensures FirstSlot(G, x + m) <= FirstSlot(G, e - 1)
  {
    var b, y := G.bsize, x + m - 1;
    DivMono(x, y, b);
    DivMono(y, y + 1, b);
    DivMono(x + m, e - 1, b);
    DivBounds(y, b);
    DivBounds(y + 1, b);
    MulStrict(y / b + 1, (y + 1) / b, b);
    assert (y / b + 1) * b == (y / b) * b + b;
  }

  lemma {:induction false} FundsStep(G: Geometry, bs0: seq<Bytes>, ip0: Inode, bs: seq<Bytes>, ip: Inode, bs': seq<Bytes>, ip': Inode, off: nat, n: nat, m: nat, len: nat)
    requires Funds(G, bs0, ip0, bs, ip, off, n, len) && 0 < m <= len - n && off + len <= G.Maxfile() * G.bsize
    requires SlotsAfter(G, bs, ip, bs', ip', FirstSlot(G, off + n), EndSlot(G, off + n, m))
    requires FreeCount(G, bs') + Needed(G, bs, ip, FirstSlot(G, off + n), EndSlot(G, off + n, m)) == FreeCount(G, bs)
    ensures Funds(G, bs0, ip0, bs', ip', off, n + m, len)
  {
    EndSlotBelow(G, off, len);
    if n + m < len {
      SlotEdges(G, off + n, m, off + len);
      assert EndSlot(G, off, len) == FirstSlot(G, off + len - 1) + 1;
      hide FirstSlot, EndSlot, FreeCount, SlotsAfter, Needed;
      NeededSplit(G, bs, ip, bs', ip', FirstSlot(G, off + n), EndSlot(G, off + n, m), FirstSlot(G, off + n + m), EndSlot(G, off, len));
    } else {
      assert EndSlot(G, off + n, m) == EndSlot(G, off, len);
    }
  }

  lemma {:induction false} NeededMono(G: Geometry, bs: seq<Bytes>, ip: Inode, lo: nat, mid: nat, hi: nat)
    requires lo <= mid <= hi
    ensures Needed(G, bs, ip, lo, mid) <= Needed(G, bs, ip, lo, hi)
  {
    hide Slot;
    EmptySplit(G, bs, ip, lo, mid, hi);
  }

  /** A chunk that finds too few free blocks means that the whole write needs more than there are. */
  lemma {:induction false} FundsShort(G: Geometry, bs0: seq<Bytes>, ip0: Inode, bs: seq<Bytes>, ip: Inode, off: nat, n: nat, m: nat, len: nat)
    requires Funds(G, bs0, ip0, bs, ip, off, n, len) && 0 < m <= len - n && off + len <= G.Maxfile() * G.bsize
    ensures FreeCount(G, bs) < Needed(G, bs, ip, FirstSlot(G, off + n), EndSlot(G, off + n, m)) ==>
      FreeCount(G, bs0) < Needed(G, bs0, ip0, FirstSlot(G, off), EndSlot(G, off, len))
  {
    DivMono(off + n, off + n + m - 1, G.bsize);
    DivMono(off + n + m - 1, off + len - 1, G.bsize);
    NeededMono(G, bs, ip, FirstSlot(G, off + n), EndSlot(G, off + n, m), EndSlot(G, off, len));
    hide Needed, FreeCount;
  }

  /** How many of len bytes at off the chunks of filewrite() write: all, or the whole chunks below the largest file size. */
  ghost function Fit(G: Geometry, size: int, off: nat, len: nat, max: nat): nat
    requires max > 0
  {
    var limit := G.Maxfile() * G.bsize;
    if off > size || off > limit then 0
    else if off + len <= limit then len
    else
      DivNonNeg(limit - off, max);
      ((limit - off) / max) * max
  }

  lemma {:induction false} FitBound(G: Geometry, size: int, off: nat, len: nat, max: nat)
    requires max > 0
    ensures var fit := Fit(G, size, off, len, max); fit <= len && (fit > 0 ==> off <= size && off + fit <= G.Maxfile() * G.bsize)
  {
    var limit := G.Maxfile() * G.bsize;
    if off <= limit { DivBounds(limit - off, max); }
  }

  /** The k-th chunk is written whole exactly if it is among the bytes that fit. */
  lemma {:induction false} FitStep(G: Geometry, size: int, off: nat, len: nat, max: nat, k: nat, n1: nat)
    requires max > 0 && k * max < len && n1 == Min(max, len - k * max) && k * max <= Fit(G, size, off, len, max)
    ensures k * max + n1 == Min((k + 1) * max, len)
    ensures var fit, limit := Fit(G, size, off, len, max), G.Maxfile() * G.bsize;
            if k * max < fit then k * max + n1 <= fit && off <= size && off + k * max + n1 <= limit
            else off > size || off + k * max + n1 > limit
  {
    var limit, fit := G.Maxfile() * G.bsize, Fit(G, size, off, len, max);
    assert (k + 1) * max == k * max + max;
    if off <= limit && off <= size { RoomStep(limit - off, len, max, k, n1, fit); }
  }

  lemma {:induction false} RoomStep(room: nat, len: nat, max: nat, k: nat, n1: nat, fit: nat)
    requires max > 0 && k * max < len && n1 == Min(max, len - k * max) && k * max <= fit
    requires fit == if len <= room then len else (room / max) * max
    ensures if k * max < fit then k * max + n1 <= fit && k * max + n1 <= room else k * max + n1 > room
  {
    if len > room {
      DivBounds(room, max);
      DivNonNeg(room, max);
      var q := room / max;
      assert (k + 1) * max == k * max + max;
      if k < q { MulMono(k + 1, q, max); } else { MulMono(q, k, max); }
    }
  }

  /** The free blocks do not cover a write of n bytes at off. */
  ghost predicate TooFew(G: Geometry, bs: seq<Bytes>, ip: Inode, off: nat, n: nat)
    requires G.bsize > 0
  {
    FreeCount(G, bs) < Needed(G, bs, ip, FirstSlot(G, off), EndSlot(G, off, n))
  }

  /** The blocks and the inodes on disk. */
  datatype Snapshot = Snapshot(blocks: seq<Bytes>, inodes: seq<Inode>)

  /** A transaction that logged the blocks lg, at most `ops` of them: nothing else changed. */
  ghost predicate Transacts(ipb: nat, inodestart: nat, s: Snapshot, s': Snapshot, lg: set<int>, ops: nat) {
    Recorded(s.blocks, s'.blocks, lg) && InodesRecorded(ipb, inodestart, s.inodes, s'.inodes, lg) && |lg| <= ops
  }

  /** The states between the chunks of a filewrite(): after the k-th chunk the file has the first k chunks of src. */
  ghost predicate Chunks(G: Geometry, ipb: nat, inodestart: nat, ss: seq<Snapshot>, logs: seq<set<int>>, i: int, off: nat, src: seq<int>, max: nat, ops: nat) {
    && |ss| == |logs| + 1
    && (forall k :: 0 <= k < |ss| ==> Chunked(G, ss[0].blocks, ss[0].inodes, ss[k].blocks, ss[k].inodes, i, off, src, Min(k * max, |src|)))
    && (forall k :: 0 <= k < |logs| ==> Transacts(ipb, inodestart, ss[k], ss[k + 1], logs[k], ops))
  }

  lemma {:induction false} ChunksStart(G: Geometry, ipb: nat, inodestart: nat, s: Snapshot, i: int, off: nat, src: seq<int>, max: nat, ops: nat)
    requires Chunked(G, s.blocks, s.inodes, s.blocks, s.inodes, i, off, src, 0)
    ensures Chunks(G, ipb, inodestart, [s], [], i, off, src, max, ops)
  {
    hide Chunked;
  }

  lemma {:induction false} ChunksStep(G: Geometry, ipb: nat, inodestart: nat, ss: seq<Snapshot>, logs: seq<set<int>>, s: Snapshot, lg: set<int>,
                                      i: int, off: nat, src: seq<int>, max: nat, ops: nat)
    requires Chunks(G, ipb, inodestart, ss, logs, i, off, src, max, ops) && Transacts(ipb, inodestart, ss[|logs|], s, lg, ops)
    requires Chunked(G, ss[0].blocks, ss[0].inodes, s.blocks, s.inodes, i, off, src, Min((|logs| + 1) * max, |src|))
    ensures Chunks(G, ipb, inodestart, ss + [s], logs + [lg], i, off, src, max, ops)
  {
    hide Chunked, Transacts;
    var ss', logs' := ss + [s], logs + [lg];
    forall k | 0 <= k < |logs'| ensures Transacts(ipb, inodestart, ss'[k], ss'[k + 1], logs'[k], ops) {
      if k < |logs| { assert ss'[k] == ss[k] && ss'[k + 1] == ss[k + 1]; }
    }
  }

  /** A chunk as a transaction. */
  lemma {:induction false} ChunkTransacts(G: Geometry, bs: seq<Bytes>, ins: seq<Inode>, bs': seq<Bytes>, ins': seq<Inode>, lg: set<int>, i: int, off: nat, src: seq<int>,
                                          ipb: nat, inodestart: nat, ops: nat)
    requires ipb > 0 && Written(G, bs, ins, {}, bs', ins', lg, i, off, src, i / ipb + inodestart) && HoleFree(G, bs, ins[i])
    requires ops >= 6 && 0 < |src| <= ChunkBlocks(ops) * G.bsize
    ensures Transacts(ipb, inodestart, Snapshot(bs, ins), Snapshot(bs', ins'), lg, ops)
  {
    ChunkFits(G, bs, ins, bs', ins', lg, i, off, src, i / ipb + inodestart, ops);
    hide Contents, Spliced, KeepsFile, Recorded, SlotsAfter, Needed, FreeCount, Empty, InodesRecorded;
    OneInode(ipb, inodestart, ins, ins', i, lg);
  }

  /** The next chunk, n1 bytes after the first n, is written. */
  lemma {:induction false} ChunkDone(G: Geometry, ipb: nat, inodestart: nat, ss: seq<Snapshot>, logs: seq<set<int>>, s: Snapshot, lg: set<int>,
                                     i: int, off: nat, src: seq<int>, max: nat, ops: nat, n: nat, n1: nat, fit: nat)
    requires Chunks(G, ipb, inodestart, ss, logs, i, off, src, max, ops) && n == Min(|logs| * max, |src|) && n + n1 == Min((|logs| + 1) * max, |src|)
    requires ops >= 6 && ipb > 0 && 0 < n1 <= max == ChunkBlocks(ops) * G.bsize && n + n1 <= fit && off + fit <= G.Maxfile() * G.bsize
    requires Written(G, ss[|logs|].blocks, ss[|logs|].inodes, {}, s.blocks, s.inodes, lg, i, off + n, src[n..n + n1], i / ipb + inodestart)
    requires 0 <= i < |ss[|logs|].inodes| && HoleFree(G, ss[|logs|].blocks, ss[|logs|].inodes[i]) && i < |ss[0].inodes|
    requires Funds(G, ss[0].blocks, ss[0].inodes[i], ss[|logs|].blocks, ss[|logs|].inodes[i], off, n, fit)
    ensures Chunks(G, ipb, inodestart, ss + [s], logs + [lg], i, off, src, max, ops)
    ensures Chunked(G, ss[0].blocks, ss[0].inodes, s.blocks, s.inodes, i, off, src, n + n1)
    ensures i < |s.inodes| && Funds(G, ss[0].blocks, ss[0].inodes[i], s.blocks, s.inodes[i], off, n + n1, fit)
  {
    hide Chunked, Transacts, Written, Funds, HoleFree, ChunkBlocks, SlotsAfter, Needed, FreeCount, Recorded, Contents, KeepsFile;
    var bs0, ins0, bs, ins := ss[0].blocks, ss[0].inodes, ss[|logs|].blocks, ss[|logs|].inodes;
    ChunkedStep(G, bs0, ins0, bs, ins, s.blocks, s.inodes, lg, i, off, src, n, n1, i / ipb + inodestart);
    WrittenFacts(G, bs, ins, {}, s.blocks, s.inodes, lg, i, off + n, src[n..n + n1], i / ipb + inodestart);
    ChunkTransacts(G, bs, ins, s.blocks, s.inodes, lg, i, off + n, src[n..n + n1], ipb, inodestart, ops);
    FundsStep(G, bs0, ins0[i], bs, ins[i], s.blocks, s.inodes[i], off, n, n1, fit);
    ChunksStep(G, ipb, inodestart, ss, logs, s, lg, i, off, src, max, ops);
  }

  /** filewrite() on a file with offset `off`: the bytes go out in chunks, each chunk a transaction of at most `ops` blocks;
      `logs` has the blocks that each chunk logged, `ss` the states between the chunks, and `off'` is the offset afterwards. */
  method Filewrite(fs: FileSystem, i: int, writable: bool, off: nat, src: seq<int>, ops: nat)
    returns (r: Outcome, off': nat, ghost ss: seq<Snapshot>, ghost logs: seq<set<int>>)
    requires Consistent(fs) && 0 <= i < fs.inodes.Length && !fs.inodes[i].dev && AreBytes(src) && ops >= 6 && fs.G.bsize > 0
    requires off < UINT && |src| < UINT && ChunkBlocks(ops) * fs.G.bsize < UINT && fs.G.Maxfile() * fs.G.bsize < UINT
    modifies fs, fs.blocks, fs.inodes, fs.dinodes
    ensures ChunkBlocks(ops) * fs.G.bsize > 0
    ensures ss != [] && ss[0] == Snapshot(old(fs.blocks[..]), old(fs.dinodes[..]))
    ensures Chunks(fs.G, fs.ipb, fs.inodestart, ss, logs, i, off, src, ChunkBlocks(ops) * fs.G.bsize, ops)
    ensures r != Panicked ==> Consistent(fs) && ss[|ss| - 1] == Snapshot(fs.blocks[..], fs.dinodes[..])
    ensures !writable ==> r == Returned(-1) && off' == off && logs == []
    ensures var fit := Fit(fs.G, old(fs.inodes[i].size), off, |src|, ChunkBlocks(ops) * fs.G.bsize);
            writable ==>
              && (r == Panicked <==> TooFew(fs.G, old(fs.blocks[..]), old(fs.inodes[i]), off, fit))
              && (r != Panicked ==> off' == off + fit == off + Min(|logs| * (ChunkBlocks(ops) * fs.G.bsize), |src|))
              && (r != Panicked ==> r == Returned(if fit == |src| then |src| else -1))
  {
    hide FsOk, AllHoleFree, Written, Chunked, Chunks, Transacts, AreBytes, FreeCount, Needed, ChunkBlocks, Funds, SlotsAfter, FirstSlot, EndSlot, Fit;
    ghost var G, bs0, ins0 := fs.G, fs.blocks[..], fs.inodes[..];
    ChunkPositive(G, ops);
    var max := ChunkBlocks(ops) * fs.G.bsize;
    off', ss, logs := off, [Snapshot(bs0, ins0)], [];
    FsFacts(G, bs0, ins0, fs.ow, {});
    HoleFreeAt(G, bs0, ins0, i);
    ChunkedStart(G, bs0, ins0, i, off, src);
    ChunksStart(G, fs.ipb, fs.inodestart, ss[0], i, off, src, max, ops);
    if !writable { return Returned(-1), off', ss, logs; }
    ghost var fit := Fit(G, ins0[i].size, off, |src|, max);
    FitBound(G, ins0[i].size, off, |src|, max);
    FundsStart(G, bs0, ins0[i], off, fit);
    var n := 0;
    while n < |src|
      invariant 0 <= n <= fit && n == Min(|logs| * max, |src|) && off' == off + n && Consistent(fs)
      invariant ss != [] && |ss| == |logs| + 1 && ss[0] == Snapshot(bs0, ins0) && ss[|ss| - 1] == Snapshot(fs.blocks[..], fs.dinodes[..])
      invariant Chunked(G, bs0, ins0, fs.blocks[..], fs.inodes[..], i, off, src, n)
      invariant Chunks(G, fs.ipb, fs.inodestart, ss, logs, i, off, src, max, ops)
      invariant Funds(G, bs0, ins0[i], fs.blocks[..], fs.inodes[i], off, n, fit)
    {
      var n1 := if |src| - n > max then max else |src| - n;
      fs.logged := {};
      ghost var bs, ins := fs.blocks[..], fs.inodes[..];
      FitStep(G, ins0[i].size, off, |src|, max, |logs|, n1);
      ChunkedSize(G, bs0, ins0, bs, ins, i, off, src, n);
      PartBytes(src, n, n1);
      HoleFreeAt(G, bs, ins, i);
      if n < fit { FundsShort(G, bs0, ins0[i], bs, ins[i], off, n, n1, fit); } else { FundsEnd(G, bs0, ins0[i], bs, ins[i], off, n, fit); }
      var w := Writei(fs, i, off', src[n..n + n1], 0);
      if w == Panicked { return Panicked, off', ss, logs; }
      if w == Returned(-1) { return Returned(-1), off', ss, logs; }
      ChunkDone(G, fs.ipb, fs.inodestart, ss, logs, Snapshot(fs.blocks[..], fs.inodes[..]), fs.logged, i, off, src, max, ops, n, n1, fit);
      off' := off' + n1;
      logs := logs + [fs.logged];
      ss := ss + [Snapshot(fs.blocks[..], fs.dinodes[..])];
      n := n + n1;
    }
    FundsEnd(G, bs0, ins0[i], fs.blocks[..], fs.inodes[i], off, n, fit);
    r := Returned(|src|);
  }

  lemma {:induction false} FundsEnd(G: Geometry, bs0: seq<Bytes>, ip0: Inode, bs: seq<Bytes>, ip: Inode, off: nat, n: nat, len: nat)
    requires Funds(G, bs0, ip0, bs, ip, off, n, len) && n >= len
    ensures FreeCount(G, bs0) >= Needed(G, bs0, ip0, FirstSlot(G, off), EndSlot(G, off, len))
  {
    hide FreeCount, Needed;
  }

  lemma {:induction false} ChunkPositive(G: Geometry, ops: nat)
    requires ops >= 6 && G.bsize > 0
    ensures ChunkBlocks(ops) * G.bsize > 0
  {
    assert ChunkBlocks(ops) >= 1;
  }

  lemma {:induction false} ChunkedStart(G: Geometry, bs: seq<Bytes>, ins: seq<Inode>, i: int, off: nat, src: seq<int>)
    requires G.bsize > 0 && 0 <= i < |ins| && ins[i].size >= 0
    ensures Chunked(G, bs, ins, bs, ins, i, off, src, 0)
  {
    hide Contents, OthersKept;
    OthersRefl(G, bs, ins, i);
  }

  lemma {:induction false} ChunkedSize(G: Geometry, bs0: seq<Bytes>, ins0: seq<Inode>, bs: seq<Bytes>, ins: seq<Inode>, i: int, off: nat, src: seq<int>, n: int)
    requires Chunked(G, bs0, ins0, bs, ins, i, off, src, n)
    ensures |ins| == |ins0| && !ins0[i].dev ==> !ins[i].dev
    ensures 0 <= i < |ins| == |ins0| && ins[i].size == (if n == 0 then ins0[i].size else Max(ins0[i].size, off + n)) && (n > 0 ==> off <= ins0[i].size)
  {
    hide Contents, KeepsFile, Spliced;
  }

  lemma {:induction false} HoleFreeAt(G: Geometry, bs: seq<Bytes>, ins: seq<Inode>, i: int)
    requires AllHoleFree(G, bs, ins) && 0 <= i < |ins|
    ensures HoleFree(G, bs, ins[i]) && ins[i].size >= 0
  {
    hide Slot;
  }
}
