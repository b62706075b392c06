/** fs.c's block allocator and inode content layer: balloc, bfree, bmap, itrunc,
    iupdate, readi and writei over the blocks as the log presents them. */
module InodeLayer {
  import opened Arith
  import opened Counting
  import opened BlockCodec
  import opened Inodes

  lemma {:induction false} BitOf(G: Geometry, q: nat, bi: nat)
    requires G.bsize > 0 && bi < G.Bpb()
    ensures var b := q * G.Bpb() + bi; G.BitBlock(b) == G.bmapstart + q && G.BitByte(b) == bi / 8 && G.BitNo(b) == bi % 8
  {
    DivStep(q, G.Bpb(), bi);
  }

  ghost function FreeBlocks(G: Geometry, bs: seq<Bytes>): set<int>
    requires G.Ok() && BlocksOk(G, bs)
  {
    set b | 0 <= b < G.size && !Used(G, bs, b)
  }

  lemma {:induction false} UsedBit(G: Geometry, bs: seq<Bytes>, b: nat)
    requires G.Ok() && BlocksOk(G, bs) && b < G.size
    ensures G.BitBlock(b) < |bs| && G.BitByte(b) < |bs[G.BitBlock(b)]| && (Used(G, bs, b) <==> Bit(bs[G.BitBlock(b)][G.BitByte(b)], G.BitNo(b)))
  {
    BitPlace(G, b);
  }

  /** Taking a block takes it off the free blocks and nothing else. */
  lemma {:induction false} TakeFree(G: Geometry, bs: seq<Bytes>, ins: seq<Inode>, ow: Owners, pend: set<int>, b: nat)
    requires FsOk(G, bs, ins, ow, pend) && b < G.size && !Used(G, bs, b)
    requires G.BitBlock(b) < |bs| && G.BitByte(b) < |bs[G.BitBlock(b)]| && b >= G.datastart
    ensures var bs' := Flip(G, bs, b, Mask(G.BitNo(b)))[b := Zeros(G.bsize)];
            G.Ok() && BlocksOk(G, bs') && FreeBlocks(G, bs') == FreeBlocks(G, bs) - {b} && b in FreeBlocks(G, bs)
  {
    MarkUsed(G, bs, b);
    var bs1 := Flip(G, bs, b, Mask(G.BitNo(b)));
    UsedFrame(G, bs1, b, Zeros(G.bsize));
    hide Used, OwnOk, BitmapOk, Zeros;
    var bs' := bs1[b := Zeros(G.bsize)];
    forall c | 0 <= c < G.size ensures Used(G, bs', c) <==> c == b || Used(G, bs, c) {
      assert Used(G, bs1, c) <==> c == b || Used(G, bs, c);
      assert Used(G, bs', c) <==> Used(G, bs1, c);
    }
    assert forall c :: c in FreeBlocks(G, bs') <==> c in FreeBlocks(G, bs) - {b};
  }

  ghost predicate AllKept(G: Geometry, bs: seq<Bytes>, ins: seq<Inode>, bs': seq<Bytes>, ins': seq<Inode>) {
    |ins'| == |ins| && forall j :: 0 <= j < |ins| ==> KeepsFile(G, bs, ins[j], bs', ins'[j])
  }

  lemma {:induction false} KeptTrans(G: Geometry, bs: seq<Bytes>, ins: seq<Inode>, bs1: seq<Bytes>, ins1: seq<Inode>, bs2: seq<Bytes>, ins2: seq<Inode>)
    requires AllKept(G, bs, ins, bs1, ins1) && AllKept(G, bs1, ins1, bs2, ins2)
    ensures AllKept(G, bs, ins, bs2, ins2)
  {
    hide Slot;
  }

  /** Taking a block from the free ones and putting it into an empty slot keeps every file. */
  lemma {:induction false} TakeAssignKeeps(G: Geometry, bs: seq<Bytes>, bs1: seq<Bytes>, ins: seq<Inode>, bs2: seq<Bytes>, ins2: seq<Inode>, ow: Owners,
                                           i: int, k: int, b: int, x: int)
    requires OwnOk(G, bs, ins, ow) && SameOwned(bs, bs1, ow) && OwnOk(G, bs1, ins, ow)
    requires Assigned(G, bs1, ins, bs2, ins2, i, k, b)
    requires |bs2| == |bs1| && (forall c :: 0 <= c < |bs1| && c != x ==> bs2[c] == bs1[c]) && (x in ow ==> ow[x].1 == G.Maxfile())
    requires forall j :: 0 <= j < |ins| ==> ins2[j].size == ins[j].size && ins2[j].dev == ins[j].dev
    ensures AllKept(G, bs, ins, bs2, ins2)
  {
    hide Slot;
    forall j | 0 <= j < |ins| ensures KeepsFile(G, bs, ins[j], bs1, ins[j]) && KeepsFile(G, bs1, ins[j], bs2, ins2[j]) {
      KeptFrame(G, bs, bs1, ins, ow, j);
      AssignedKeeps(G, bs1, ins, bs2, ins2, ow, i, k, b, x, j);
    }
    KeptTrans(G, bs, ins, bs1, ins, bs2, ins2);
  }

  /** Every block that changed was passed to log_write(). */
  ghost predicate Recorded(bs: seq<Bytes>, bs': seq<Bytes>, lg: set<int>) {
    |bs'| == |bs| && forall b :: 0 <= b < |bs| && b !in lg ==> bs'[b] == bs[b]
  }

  lemma {:induction false} RecordedTrans(bs: seq<Bytes>, bs1: seq<Bytes>, bs2: seq<Bytes>, lg1: set<int>, lg2: set<int>)
    requires Recorded(bs, bs1, lg1) && Recorded(bs1, bs2, lg2) && lg1 <= lg2
    ensures Recorded(bs, bs2, lg2)
  {
  }

  /** Every slot but k is as it was. */
  ghost predicate SlotsBut(G: Geometry, bs: seq<Bytes>, ip: Inode, bs': seq<Bytes>, ip': Inode, k: int) {
    forall l :: 0 <= l <= G.Maxfile() && l != k ==> Slot(G, bs', ip', l) == Slot(G, bs, ip, l)
  }

  lemma {:induction false} ButRefl(G: Geometry, bs: seq<Bytes>, ip: Inode, k: int)
    ensures SlotsBut(G, bs, ip, bs, ip, k)
  {
    hide Slot;
  }

  /** Blocks bmap() has to allocate for the bn-th block of a file. */
  ghost function Needs(G: Geometry, bs: seq<Bytes>, ip: Inode, bn: nat): nat {
    (if Slot(G, bs, ip, bn) == 0 then 1 else 0) + (if bn >= G.ndirect && Slot(G, bs, ip, G.Maxfile()) == 0 then 1 else 0)
  }

  lemma {:induction false} KeptRefl(G: Geometry, bs: seq<Bytes>, ins: seq<Inode>)
    ensures AllKept(G, bs, ins, bs, ins)
  {
    hide Slot;
  }

  lemma {:induction false} SameSlots(G: Geometry, bs: seq<Bytes>, bs1: seq<Bytes>, ins: seq<Inode>, bs2: seq<Bytes>, ins2: seq<Inode>, ow: Owners,
                                     i: int, k: int, b: int)
    requires OwnOk(G, bs, ins, ow) && SameOwned(bs, bs1, ow) && 0 <= i < |ins|
    requires Assigned(G, bs1, ins, bs2, ins2, i, k, b)
    ensures SlotsBut(G, bs, ins[i], bs2, ins2[i], k)
  {
    hide Slot;
    forall l | 0 <= l <= G.Maxfile() && l != k ensures Slot(G, bs2, ins2[i], l) == Slot(G, bs, ins[i], l) {
      assert SlotNo(G, |ins|, i, l);
      SlotsSame(G, bs, bs1, ins, ow, i, l);
    }
  }

  lemma {:induction false} IndirectThere(G: Geometry, bs: seq<Bytes>, ins: seq<Inode>, ow: Owners, pend: set<int>, i: int, k: int)
    requires FsOk(G, bs, ins, ow, pend) && 0 <= i < |ins| && G.ndirect <= k < G.Maxfile() && ins[i].addrs[G.ndirect] != 0
    ensures var a := ins[i].addrs[G.ndirect];
            && 0 < a < |bs| && |bs[a]| == G.bsize && 4 * (k - G.ndirect) + 4 <= G.bsize && a in ow && ow[a] == (i, G.Maxfile())
            && Slot(G, bs, ins[i], k) == Word(bs[a], k - G.ndirect) && SlotNo(G, |ins|, i, k)
  {
    SlotOwned(G, bs, ins, ow, pend, i, G.Maxfile());
  }

  /** An entry of an indirect block does not change the bitmap. */
  lemma {:induction false} FreeEntry(G: Geometry, bs: seq<Bytes>, ins: seq<Inode>, ow: Owners, pend: set<int>, i: int, k: int, b: int)
    requires FsOk(G, bs, ins, ow, pend) && 0 <= i < |ins| && G.ndirect <= k < G.Maxfile() && ins[i].addrs[G.ndirect] != 0
    ensures var a := ins[i].addrs[G.ndirect];
            && 0 < a < |bs| && 4 * (k - G.ndirect) + 4 <= |bs[a]| && BlocksOk(G, bs[a := SetWord(bs[a], k - G.ndirect, b)])
            && FreeBlocks(G, bs[a := SetWord(bs[a], k - G.ndirect, b)]) == FreeBlocks(G, bs)
  {
    SlotOwned(G, bs, ins, ow, pend, i, G.Maxfile());
    var a := ins[i].addrs[G.ndirect];
    WordSetBytes(bs[a], k - G.ndirect, b);
    var x := SetWord(bs[a], k - G.ndirect, b);
    UsedFrame(G, bs, a, x);
    hide Used, OwnOk, BitmapOk, SetWord;
    var bs' := bs[a := x];
    forall c | 0 <= c < G.size ensures c in FreeBlocks(G, bs') <==> c in FreeBlocks(G, bs) {
      assert Used(G, bs', c) <==> Used(G, bs, c);
    }
  }

  /** The indirect block and its bitmap block, if there is one. */
  ghost function IndirectLog(G: Geometry, a: int): set<int>
    requires G.bsize > 0
  {
    if a <= 0 then {} else {a, G.BitBlock(a)}
  }

  /** What bmap() does to the slots of the inode when it returns the block of slot bn. */
  ghost predicate Filled(G: Geometry, bs: seq<Bytes>, ip: Inode, bs': seq<Bytes>, ip': Inode, bn: nat) {
    && (forall l :: 0 <= l < G.Maxfile() && l != bn ==> Slot(G, bs', ip', l) == Slot(G, bs, ip, l))
    && (bn < G.ndirect || Slot(G, bs, ip, G.Maxfile()) != 0 ==> Slot(G, bs', ip', G.Maxfile()) == Slot(G, bs, ip, G.Maxfile()))
    && (bn >= G.ndirect ==> Slot(G, bs', ip', G.Maxfile()) != 0)
  }

  lemma {:induction false} FilledDirect(G: Geometry, bs: seq<Bytes>, ip: Inode, bs': seq<Bytes>, ip': Inode, bn: nat)
    requires SlotsBut(G, bs, ip, bs', ip', bn) && bn < G.ndirect
    ensures Filled(G, bs, ip, bs', ip', bn)
  {
    hide Slot;
  }

  lemma {:induction false} FilledEntry(G: Geometry, bs: seq<Bytes>, ip: Inode, bs1: seq<Bytes>, ip1: Inode, bs2: seq<Bytes>, bn: nat)
    requires SlotsBut(G, bs, ip, bs1, ip1, G.Maxfile()) && SlotsBut(G, bs1, ip1, bs2, ip1, bn) && G.ndirect <= bn < G.Maxfile()
    requires Slot(G, bs1, ip1, G.Maxfile()) != 0
    requires Slot(G, bs, ip, G.Maxfile()) != 0 ==> Slot(G, bs1, ip1, G.Maxfile()) == Slot(G, bs, ip, G.Maxfile())
    ensures Filled(G, bs, ip, bs2, ip1, bn)
  {
    hide Slot;
  }

  lemma {:induction false} IndirectSlot(G: Geometry, bs: seq<Bytes>, ip: Inode, k: nat)
    requires |ip.addrs| == G.ndirect + 1
    ensures Slot(G, bs, ip, G.Maxfile()) == ip.addrs[G.ndirect]
    ensures k < G.ndirect ==> Slot(G, bs, ip, k) == ip.addrs[k]
    ensures G.ndirect <= k && Slot(G, bs, ip, k) != 0 ==> ip.addrs[G.ndirect] != 0
  {
  }

  lemma {:induction false} FsFacts(G: Geometry, bs: seq<Bytes>, ins: seq<Inode>, ow: Owners, pend: set<int>)
    requires FsOk(G, bs, ins, ow, pend)
    ensures G.Ok() && G.bsize > 0 && BlocksOk(G, bs) && forall i :: 0 <= i < |ins| ==> |ins[i].addrs| == G.ndirect + 1
  {
    hide OwnOk, BitmapOk, BlocksOk;
  }

  lemma {:induction false} ButAt(G: Geometry, bs: seq<Bytes>, ip: Inode, bs': seq<Bytes>, ip': Inode, k: int, l: int)
    requires SlotsBut(G, bs, ip, bs', ip', k) && 0 <= l <= G.Maxfile() && l != k
    ensures Slot(G, bs', ip', l) == Slot(G, bs, ip, l)
  {
    hide Slot;
  }

  lemma {:induction false} RecordedRefl(bs: seq<Bytes>, lg: set<int>)
    ensures Recorded(bs, bs, lg)
  {
  }

  // ---------------------------------------------------------------- truncation

  /** Every file but the i-th is as it was. */
  ghost predicate OthersKept(G: Geometry, bs: seq<Bytes>, ins: seq<Inode>, bs': seq<Bytes>, ins': seq<Inode>, i: int) {
    |ins'| == |ins| && forall j :: 0 <= j < |ins| && j != i ==> ins'[j] == ins[j] && KeepsFile(G, bs, ins[j], bs', ins'[j])
  }

  lemma {:induction false} OthersFrame(G: Geometry, bs: seq<Bytes>, bs': seq<Bytes>, ins: seq<Inode>, ins': seq<Inode>, ow: Owners,
                                       pend: set<int>, i: int)
    requires FsOk(G, bs, ins', ow, pend) && SameOwned(bs, bs', ow) && |ins'| == |ins|
    requires forall j :: 0 <= j < |ins| && j != i ==> ins'[j] == ins[j]
    ensures OthersKept(G, bs, ins, bs', ins', i)
  {
    hide OwnOk, SameOwned, KeepsFile;
    forall j | 0 <= j < |ins| && j != i ensures KeepsFile(G, bs, ins[j], bs', ins'[j]) {
      KeptFrame(G, bs, bs', ins', ow, j);
    }
  }

  lemma {:induction false} OthersTrans(G: Geometry, bs: seq<Bytes>, ins: seq<Inode>, bs1: seq<Bytes>, ins1: seq<Inode>,
                                       bs2: seq<Bytes>, ins2: seq<Inode>, i: int)
    requires OthersKept(G, bs, ins, bs1, ins1, i) && OthersKept(G, bs1, ins1, bs2, ins2, i)
    ensures OthersKept(G, bs, ins, bs2, ins2, i)
  {
    hide Slot;
  }

  lemma {:induction false} SameRefl(bs: seq<Bytes>, ow: Owners)
    ensures SameOwned(bs, bs, ow)
  {
  }

  lemma {:induction false} SameTrans(bs: seq<Bytes>, bs1: seq<Bytes>, bs2: seq<Bytes>, ow: Owners)
    requires SameOwned(bs, bs1, ow) && SameOwned(bs1, bs2, ow)
    ensures SameOwned(bs, bs2, ow)
  {
  }

  /** Block ind is the indirect block of inode i and lists what o gives to the inode's slots from ndirect on. */
  ghost predicate ListsOwned(G: Geometry, bs: seq<Bytes>, o: Owners, i: int, ind: int) {
    && 0 <= ind < |bs| && 4 * G.Nindirect() <= |bs[ind]| && ind in o && o[ind] == (i, G.Maxfile())
    && (forall l :: 0 <= l < G.Nindirect() && Word(bs[ind], l) != 0 ==> Word(bs[ind], l) in o && o[Word(bs[ind], l)] == (i, G.ndirect + l))
    && (forall b :: b in o && o[b].0 == i && o[b].1 >= G.ndirect ==>
          if o[b].1 < G.Maxfile() then Word(bs[ind], o[b].1 - G.ndirect) == b else b == ind && o[b].1 == G.Maxfile())
  }

  /** What is left for itrunc() to free: the indirect block and the blocks from its j-th entry on; o has the owners before. */
  ghost predicate Listed(G: Geometry, bs: seq<Bytes>, o: Owners, pend: set<int>, i: int, ind: int, j: nat) {
    ListsOwned(G, bs, o, i, ind) && forall b :: b in pend <==> b in o && o[b].0 == i && G.ndirect + j <= o[b].1
  }

  lemma {:induction false} ListedAt(G: Geometry, bs: seq<Bytes>, ins: seq<Inode>, o: Owners, ow: Owners, pend: set<int>, i: int, ind: int, j: nat)
    requires FsOk(G, bs, ins, ow, pend) && Listed(G, bs, o, pend, i, ind, j) && j < G.Nindirect()
    ensures 0 <= ind < |bs| && 4 * j + 4 <= |bs[ind]|
    ensures if Word(bs[ind], j) == 0 then pend - {0} == pend else Word(bs[ind], j) in pend && 0 <= Word(bs[ind], j) < G.size
  {
    hide OwnOk, Used, Word;
  }

  /** The bitmap is not in the data area, so the indirect block stays as it is. */
  lemma {:induction false} ListedNext(G: Geometry, bs: seq<Bytes>, bs': seq<Bytes>, ins: seq<Inode>, o: Owners, ow: Owners, pend: set<int>,
                                      i: int, ind: int, j: nat)
    requires FsOk(G, bs, ins, ow, pend) && Listed(G, bs, o, pend, i, ind, j) && j < G.Nindirect()
    requires |bs'| == |bs| && forall c :: G.datastart <= c < G.size ==> bs'[c] == bs[c]
    ensures 0 <= ind < |bs| && 4 * j + 4 <= |bs[ind]| && Listed(G, bs', o, pend - {Word(bs[ind], j)}, i, ind, j + 1)
  {
    hide OwnOk, Used, Word;
    assert ind in pend;
    assert bs'[ind] == bs[ind];
    var w := Word(bs[ind], j);
    forall b ensures b in pend - {w} <==> b in o && o[b].0 == i && G.ndirect + (j + 1) <= o[b].1 {
      if b in pend && o[b].1 == G.ndirect + j { assert b == w; }
    }
  }

  lemma {:induction false} ListedEnd(G: Geometry, bs: seq<Bytes>, o: Owners, pend: set<int>, i: int, ind: int)
    requires Listed(G, bs, o, pend, i, ind, G.Nindirect())
    ensures pend == {ind}
  {
    hide Word;
    forall b ensures b in pend <==> b == ind {
    }
  }

  lemma {:induction false} FlipFrame(G: Geometry, bs: seq<Bytes>, b: nat, d: int)
    requires G.Ok() && BlocksOk(G, bs) && b < G.size && G.BitBlock(b) < |bs| && G.BitByte(b) < |bs[G.BitBlock(b)]|
    ensures var bs' := Flip(G, bs, b, d); |bs'| == |bs| && forall c :: 0 <= c < |bs| && (c >= G.datastart || c != G.BitBlock(b)) ==> bs'[c] == bs[c]
  {
    var x := G.BitBlock(b);
    assert x < G.datastart;
  }

  lemma {:induction false} RecordedFlip(G: Geometry, bs: seq<Bytes>, b: nat, d: int, lg: set<int>)
    requires G.Ok() && b < G.size && G.BitBlock(b) < |bs| && G.BitByte(b) < |bs[G.BitBlock(b)]| && G.BitBlock(b) in lg
    ensures Recorded(bs, Flip(G, bs, b, d), lg)
  {
  }

  lemma {:induction false} EntrySlots(G: Geometry, bs: seq<Bytes>, ip: Inode, ind: int)
    requires |ip.addrs| == G.ndirect + 1 && ip.addrs[G.ndirect] == ind && 0 < ind < |bs| && 4 * G.Nindirect() <= |bs[ind]|
    ensures forall l :: 0 <= l < G.Nindirect() ==> Slot(G, bs, ip, G.ndirect + l) == Word(bs[ind], l)
    ensures Slot(G, bs, ip, G.Maxfile()) == ind
  {
  }

  lemma {:induction false} OwnedListed(G: Geometry, bs: seq<Bytes>, ins: seq<Inode>, ow: Owners, i: int, ind: int)
    requires OwnOk(G, bs, ins, ow) && 0 <= i < |ins| && 0 < ind < |bs| && 4 * G.Nindirect() <= |bs[ind]| && ind in ow && ow[ind] == (i, G.Maxfile())
    requires forall l :: 0 <= l < G.Nindirect() ==> Slot(G, bs, ins[i], G.ndirect + l) == Word(bs[ind], l)
    requires Slot(G, bs, ins[i], G.Maxfile()) == ind
    ensures ListsOwned(G, bs, ow, i, ind)
  {
    hide Word, Slot;
    forall l | 0 <= l < G.Nindirect() && Word(bs[ind], l) != 0 ensures Word(bs[ind], l) in ow && ow[Word(bs[ind], l)] == (i, G.ndirect + l) {
      assert Slot(G, bs, ins[i], G.ndirect + l) == Word(bs[ind], l) && SlotNo(G, |ins|, i, G.ndirect + l);
    }
    forall b | b in ow && ow[b].0 == i && G.ndirect <= ow[b].1 < G.Maxfile() ensures Word(bs[ind], ow[b].1 - G.ndirect) == b {
      var l := ow[b].1 - G.ndirect;
      assert Slot(G, bs, ins[i], G.ndirect + l) == Word(bs[ind], l);
    }
  }

  lemma {:induction false} ListedStart(G: Geometry, bs: seq<Bytes>, ins: seq<Inode>, ow: Owners, i: int)
    requires FsOk(G, bs, ins, ow, {}) && 0 <= i < |ins| && ins[i].addrs[G.ndirect] != 0
    ensures Listed(G, bs, ow, IndirectSet(G, ow, i), i, ins[i].addrs[G.ndirect], 0)
  {
    hide Slot, OwnOk, BitmapOk, ListsOwned;
    var ind := ins[i].addrs[G.ndirect];
    IndirectSlot(G, bs, ins[i], 0);
    SlotOwned(G, bs, ins, ow, {}, i, G.Maxfile());
    EntrySlots(G, bs, ins[i], ind);
    OwnedListed(G, bs, ins, ow, i, ind);
  }

  /** The blocks of the direct slots below k, and all blocks of an inode. */
  ghost function DirectSet(ow: Owners, i: int, k: nat): set<int> {
    set b | b in ow && ow[b].0 == i && ow[b].1 < k
  }

  ghost function OwnedBy(ow: Owners, i: int): set<int> {
    set b | b in ow && ow[b].0 == i
  }

  lemma {:induction false} DirectStep(G: Geometry, bs: seq<Bytes>, ins: seq<Inode>, ow: Owners, i: int, k: nat)
    requires FsOk(G, bs, ins, ow, {}) && 0 <= i < |ins| && k < G.ndirect
    ensures DirectSet(ow, i, k + 1) == DirectSet(ow, i, k) + (if ins[i].addrs[k] == 0 then {} else {ins[i].addrs[k]})
  {
    IndirectSlot(G, bs, ins[i], k);
    assert SlotNo(G, |ins|, i, k);
    hide Slot, BitmapOk;
    forall b ensures b in DirectSet(ow, i, k + 1) <==> b in DirectSet(ow, i, k) || (ins[i].addrs[k] != 0 && b == ins[i].addrs[k]) {
    }
  }

  lemma {:induction false} NoIndirect(G: Geometry, bs: seq<Bytes>, ins: seq<Inode>, ow: Owners, i: int)
    requires FsOk(G, bs, ins, ow, {}) && 0 <= i < |ins| && ins[i].addrs[G.ndirect] == 0
    ensures IndirectSet(G, ow, i) == {}
  {
    hide BitmapOk;
    forall b | b in ow && ow[b].0 == i ensures ow[b].1 < G.ndirect {
      IndirectSlot(G, bs, ins[i], ow[b].1);
    }
  }

  lemma {:induction false} OwnedSplit(G: Geometry, o: Owners, ow: Owners, i: int)
    requires ow == o - DirectSet(o, i, G.ndirect)
    ensures ow - IndirectSet(G, ow, i) == o - OwnedBy(o, i)
  {
  }

  lemma {:induction false} FreeIs(G: Geometry, bs: seq<Bytes>, ins: seq<Inode>, ow: Owners, pend: set<int>)
    requires FsOk(G, bs, ins, ow, pend)
    ensures forall b :: b in FreeBlocks(G, bs) <==> G.datastart <= b < G.size && b !in ow && b !in pend
  {
    hide Used, OwnOk;
  }

  lemma {:induction false} FreedBlocks(G: Geometry, bs: seq<Bytes>, ins: seq<Inode>, ow: Owners, bs': seq<Bytes>, ins': seq<Inode>, i: int)
    requires FsOk(G, bs, ins, ow, {}) && FsOk(G, bs', ins', ow - OwnedBy(ow, i), {})
    ensures FreeBlocks(G, bs') == FreeBlocks(G, bs) + OwnedBy(ow, i)
  {
    FreeIs(G, bs, ins, ow, {});
    FreeIs(G, bs', ins', ow - OwnedBy(ow, i), {});
    OwnedRange(G, bs, ins, ow);
    hide FsOk, FreeBlocks;
    forall b ensures b in FreeBlocks(G, bs') <==> b in FreeBlocks(G, bs) + OwnedBy(ow, i) {
    }
  }

  lemma {:induction false} OwnedRange(G: Geometry, bs: seq<Bytes>, ins: seq<Inode>, ow: Owners)
    requires FsOk(G, bs, ins, ow, {})
    ensures forall b :: b in ow ==> G.datastart <= b < G.size
  {
    OwnedData(G, bs, ins, ow);
  }

  /** Inode i with its first k direct slots emptied; the others as they were. */
  ghost predicate Emptied(ins: seq<Inode>, ins': seq<Inode>, i: int, k: nat) {
    && |ins'| == |ins| && 0 <= i < |ins| && k <= |ins[i].addrs|
    && ins' == ins[i := ins[i].(addrs := seq(|ins[i].addrs|, l requires 0 <= l < |ins[i].addrs| => if l < k then 0 else ins[i].addrs[l]))]
  }

  lemma {:induction false} EmptiedStep(ins: seq<Inode>, ins': seq<Inode>, i: int, k: nat)
    requires Emptied(ins, ins', i, k) && k < |ins[i].addrs|
    ensures |ins'[i].addrs| == |ins[i].addrs| && ins'[i].addrs[k] == ins[i].addrs[k]
    ensures Emptied(ins, ins'[i := ins'[i].(addrs := ins'[i].addrs[k := 0])], i, k + 1)
    ensures ins'[i].addrs[k] == 0 ==> Emptied(ins, ins', i, k + 1)
  {
    var ins2 := ins'[i := ins'[i].(addrs := ins'[i].addrs[k := 0])];
    assert ins2[i].addrs == seq(|ins[i].addrs|, l requires 0 <= l < |ins[i].addrs| => if l < k + 1 then 0 else ins[i].addrs[l]);
    if ins'[i].addrs[k] == 0 { assert ins2[i].addrs == ins'[i].addrs; }
  }

  lemma {:induction false} EmptiedStart(ins: seq<Inode>, i: int)
    requires 0 <= i < |ins|
    ensures Emptied(ins, ins, i, 0)
  {
    assert ins[i].addrs == seq(|ins[i].addrs|, l requires 0 <= l < |ins[i].addrs| => if l < 0 then 0 else ins[i].addrs[l]);
  }

  lemma {:induction false} OwnersStep(ow: Owners, S: set<int>, b: int)
    ensures ow - S - {b} == ow - (S + {b})
  {
  }

  lemma {:induction false} OthersRefl(G: Geometry, bs: seq<Bytes>, ins: seq<Inode>, i: int)
    ensures OthersKept(G, bs, ins, bs, ins, i)
  {
    hide Slot;
  }

  lemma {:induction false} NoneBelow(G: Geometry, bs: seq<Bytes>, ins: seq<Inode>, ow: Owners, i: int)
    requires FsOk(G, bs, ins, ow, {})
    ensures DirectSet(ow, i, 0) == {}
  {
    hide Slot, BitmapOk;
    forall b | b in ow ensures ow[b].1 >= 0 {
      assert SlotNo(G, |ins|, ow[b].0, ow[b].1);
    }
  }

  /** The size of an inode is not part of where its blocks are. */
  lemma {:induction false} Resized(G: Geometry, bs: seq<Bytes>, ins: seq<Inode>, ow: Owners, pend: set<int>, i: int, size: int)
    requires FsOk(G, bs, ins, ow, pend) && 0 <= i < |ins|
    ensures FsOk(G, bs, ins[i := ins[i].(size := size)], ow, pend)
  {
    var ins' := ins[i := ins[i].(size := size)];
    hide BitmapOk;
    forall j, l | SlotNo(G, |ins|, j, l) ensures Slot(G, bs, ins'[j], l) == Slot(G, bs, ins[j], l) {
    }
    OwnResized(G, bs, ins, ins', ow);
  }

  lemma {:induction false} OwnResized(G: Geometry, bs: seq<Bytes>, ins: seq<Inode>, ins': seq<Inode>, ow: Owners)
    requires OwnOk(G, bs, ins, ow) && |ins'| == |ins|
    requires forall j, l :: SlotNo(G, |ins|, j, l) ==> Slot(G, bs, ins'[j], l) == Slot(G, bs, ins[j], l)
    ensures OwnOk(G, bs, ins', ow)
  {
    hide Slot;
  }

  lemma {:induction false} OthersResized(G: Geometry, bs: seq<Bytes>, ins: seq<Inode>, bs': seq<Bytes>, ins': seq<Inode>, i: int, size: int)
    requires OthersKept(G, bs, ins, bs', ins', i) && 0 <= i < |ins'|
    ensures OthersKept(G, bs, ins, bs', ins'[i := ins'[i].(size := size)], i)
  {
    hide KeepsFile;
  }

  // ---------------------------------------------------------------- what itrunc() and iupdate() log

  lemma {:induction false} FewLogged(lg: set<int>, lg': set<int>, a: set<int>, x: int)
    requires lg' <= lg + a + {x}
    ensures |lg' - lg| <= |a| + 1
  {
    SubsetCard(lg' - lg, a + {x});
    assert |a + {x}| <= |a| + 1;
  }

  /** The blocks of the bitmap. */
  ghost function BitArea(G: Geometry): (s: set<int>)
    requires G.Ok()
    ensures |s| == (G.size - 1) / G.Bpb() + 1
  {
    DivNonNeg(G.size - 1, G.Bpb());
    Span(G.bmapstart, (G.size - 1) / G.Bpb() + 1)
  }

  lemma {:induction false} InBitArea(G: Geometry, b: nat)
    requires G.Ok() && b < G.size
    ensures G.BitBlock(b) in BitArea(G)
  {
    var n := G.Bpb();
    var q, m := b / n, (G.size - 1) / n;
    assert q <= m && 0 <= q by { DivMono(b, G.size - 1, n); DivNonNeg(b, n); }
    assert G.BitBlock(b) == G.bmapstart + q;
    assert BitArea(G) == Span(G.bmapstart, m + 1);
  }

  /** The inodes in block q of the inode area. */
  ghost function InodeBlock(dins: seq<Inode>, ipb: nat, q: nat): seq<Inode> {
    dins[Least(q * ipb, |dins|)..Least(q * ipb + ipb, |dins|)]
  }

  ghost function Least(a: nat, b: nat): (r: nat)
    ensures r <= a && r <= b
  {
    if a < b then a else b
  }

  /** Inode i is entry i % IPB of block i / IPB of the inode area, and of no other block. */
  lemma {:induction false} InodePlace(dins: seq<Inode>, ipb: nat, i: nat, ip: Inode, q: nat)
    requires i < |dins| && ipb > 0
    ensures 0 <= i / ipb && i % ipb < |InodeBlock(dins, ipb, i / ipb)| && InodeBlock(dins, ipb, i / ipb)[i % ipb] == dins[i]
    ensures InodeBlock(dins[i := ip], ipb, q) ==
            if q == i / ipb then InodeBlock(dins, ipb, q)[i % ipb := ip] else InodeBlock(dins, ipb, q)
  {
    DivBounds(i, ipb);
    var k := i / ipb;
    if q < k { MulStep(q, k, ipb); }
    if q > k { MulStep(k, q, ipb); }
  }

  lemma {:induction false} MulStep(a: nat, b: nat, m: nat)
    requires a < b
    ensures a * m + m <= b * m
  {
    MulMono(a + 1, b, m);
    assert (a + 1) * m == a * m + m;
  }

  /** Every inode that changed is in a block that was passed to log_write(). */
  ghost predicate InodesRecorded(ipb: nat, inodestart: nat, dins: seq<Inode>, dins': seq<Inode>, lg: set<int>) {
    |dins'| == |dins| && forall q: nat :: q + inodestart !in lg ==> InodeBlock(dins', ipb, q) == InodeBlock(dins, ipb, q)
  }

  lemma {:induction false} OneInode(ipb: nat, inodestart: nat, dins: seq<Inode>, dins': seq<Inode>, i: nat, lg: set<int>)
    requires i < |dins| == |dins'| && ipb > 0 && (forall j :: 0 <= j < |dins| && j != i ==> dins'[j] == dins[j])
    requires dins'[i] == dins[i] || i / ipb + inodestart in lg
    ensures InodesRecorded(ipb, inodestart, dins, dins', lg)
  {
    if dins'[i] == dins[i] {
      assert dins' == dins;
    } else {
      assert dins' == dins[i := dins'[i]];
      forall q: nat | q + inodestart !in lg ensures InodeBlock(dins', ipb, q) == InodeBlock(dins, ipb, q) {
        InodePlace(dins, ipb, i, dins'[i], q);
      }
    }
  }

  class FileSystem {
    const G: Geometry
    const inodestart: nat
    const ipb: nat                 // IPB
    const blocks: array<Bytes>
    const inodes: array<Inode>     // the inodes in memory
    const dinodes: array<Inode>    // the inodes on disk
    ghost var ow: Owners           // which slot owns a block
    ghost var pend: set<int>       // blocks taken by balloc() and not yet in a slot
    ghost var logged: set<int>     // blocks passed to log_write()

    ghost predicate Valid()
      reads this, blocks, inodes
    {
      FsOk(G, blocks[..], inodes[..], ow, pend)
    }

    /** A mounted file system: its blocks as the log presents them, its inodes, and who owns which block. */
    constructor (G: Geometry, inodestart: nat, ipb: nat, blocks: array<Bytes>, inodes: array<Inode>, dinodes: array<Inode>, ghost ow: Owners)
      requires FsOk(G, blocks[..], inodes[..], ow, {})
      ensures this.G == G && this.inodestart == inodestart && this.ipb == ipb && this.ow == ow && pend == {} && logged == {}
      ensures this.blocks == blocks && this.inodes == inodes && this.dinodes == dinodes && Valid()
    {
      this.G, this.inodestart, this.ipb := G, inodestart, ipb;
      this.blocks, this.inodes, this.dinodes := blocks, inodes, dinodes;
      this.ow, pend, logged := ow, {}, {};
    }

    ghost predicate Usable()
      reads blocks
    {
      G.Ok() && BlocksOk(G, blocks[..])
    }

    /** The inner loop of balloc() over the bitmap block of blocks b and up: the first free one, or -1. */
    method ScanBitmap(b: nat, ghost q: nat) returns (r: int)
      requires Usable() && b == q * G.Bpb() < G.size
      ensures r != -1 ==> b <= r < G.size && !Used(G, blocks[..], r)
      ensures forall c :: b <= c < (if r == -1 then b + G.Bpb() else r) && c < G.size ==> Used(G, blocks[..], c)
    {
      hide Used, BlocksOk;
      var bi := 0;
      DivStep(q, G.Bpb(), 0);
      while bi < G.Bpb() && b + bi < G.size
        invariant 0 <= bi <= G.Bpb()
        invariant forall c :: b <= c < b + bi && c < G.size ==> Used(G, blocks[..], c)
      {
        BitOf(G, q, bi);
        UsedBit(G, blocks[..], b + bi);
        if !Bit(blocks[b / G.Bpb() + G.bmapstart][bi / 8], bi % 8) { return b + bi; }
        bi := bi + 1;
      }
      r := -1;
    }

    /** The search of balloc(): the first free block, or -1. */
    method FindFree() returns (r: int)
      requires Usable()
      ensures r != -1 ==> 0 <= r < G.size && !Used(G, blocks[..], r)
      ensures forall c :: 0 <= c < (if r == -1 then G.size else r) ==> Used(G, blocks[..], c)
    {
      hide Used, BlocksOk;
      var b := 0;
      ghost var q := 0;
      while b < G.size
        invariant b == q * G.Bpb()
        invariant forall c :: 0 <= c < b && c < G.size ==> Used(G, blocks[..], c)
      {
        r := ScanBitmap(b, q);
        if r != -1 { return; }
        b := b + G.Bpb();
        q := q + 1;
      }
      r := -1;
    }

    /** balloc(): the first free block, marked in use and zeroed; -1 where it panics. */
    method Balloc() returns (r: int)
      requires Valid()
      modifies this`pend, this`logged, blocks
      ensures Valid() && (r == -1 <==> FreeBlocks(G, old(blocks[..])) == {})
      ensures r == -1 ==> blocks[..] == old(blocks[..]) && pend == old(pend) && logged == old(logged)
      ensures r != -1 ==> 0 < r < blocks.Length && r !in ow && r !in old(pend) && blocks[r] == Zeros(G.bsize)
      ensures r != -1 ==> forall c :: c in FreeBlocks(G, old(blocks[..])) ==> r <= c
      ensures r != -1 ==> pend == old(pend) + {r} && logged == old(logged) + {G.BitBlock(r), r}
      ensures r != -1 ==> SameOwned(old(blocks[..]), blocks[..], ow)
      ensures Recorded(old(blocks[..]), blocks[..], logged)
      ensures r != -1 ==> FreeBlocks(G, blocks[..]) == FreeBlocks(G, old(blocks[..])) - {r} && r in FreeBlocks(G, old(blocks[..]))
    {
      hide Used, OwnOk, BitmapOk;
      r := FindFree();
      if r == -1 { return; }
      ghost var bs := blocks[..];
      TakeBlock(G, bs, inodes[..], ow, pend, r);
      TakeFree(G, bs, inodes[..], ow, pend, r);
      SetBit(r);
      blocks[r] := Zeros(G.bsize);
      pend := pend + {r};
      logged := logged + {G.BitBlock(r), r};
    }

    /** data[bi/8] |= m in the bitmap. */
    method SetBit(b: nat)
      requires Usable() && b < G.size && G.BitBlock(b) < blocks.Length && G.BitByte(b) < |blocks[G.BitBlock(b)]|
      modifies blocks
      ensures blocks[..] == Flip(G, old(blocks[..]), b, Mask(G.BitNo(b)))
    {
      var k, j := G.BitBlock(b), G.BitByte(b);
      blocks[k] := blocks[k][j := blocks[k][j] + Mask(G.BitNo(b))];
    }

    /** bmap() for the first NDIRECT blocks. */
    method BmapDirect(i: int, bn: nat) returns (addr: int)
      requires Valid() && pend == {} && 0 <= i < inodes.Length && bn < G.ndirect
      modifies this, blocks, inodes
      ensures Valid() && pend == {}
      ensures AllKept(G, old(blocks[..]), old(inodes[..]), blocks[..], inodes[..])
      ensures addr == -1 <==> old(inodes[i].addrs[bn]) == 0 && FreeBlocks(G, old(blocks[..])) == {}
      ensures addr != -1 ==> addr > 0 && Slot(G, blocks[..], inodes[i], bn) == addr
      ensures addr == -1 || old(inodes[i].addrs[bn]) != 0 ==>
        blocks[..] == old(blocks[..]) && inodes[..] == old(inodes[..]) && logged == old(logged)
      ensures addr != -1 && old(inodes[i].addrs[bn]) == 0 ==>
        logged == old(logged) + {addr, G.BitBlock(addr)} && addr in FreeBlocks(G, old(blocks[..])) &&
        FreeBlocks(G, blocks[..]) == FreeBlocks(G, old(blocks[..])) - {addr}
      ensures SlotsBut(G, old(blocks[..]), old(inodes[i]), blocks[..], inodes[i], bn) && Recorded(old(blocks[..]), blocks[..], logged)
      ensures forall j :: 0 <= j < inodes.Length && j != i ==> inodes[j] == old(inodes[j])
    {
      hide Used, BitmapOk, FreeBlocks, SameOwned, SlotsBut;
      ghost var bs, ins, o := blocks[..], inodes[..], ow;
      KeptRefl(G, bs, ins);
      ButRefl(G, bs, ins[i], bn);
      addr := inodes[i].addrs[bn];
      if addr == 0 {
        addr := Balloc();
        if addr == -1 { return; }
        AssignDirect(G, blocks[..], ins, ow, pend, i, bn, addr);
        ghost var bs1 := blocks[..];
        inodes[i] := inodes[i].(addrs := inodes[i].addrs[bn := addr]);
        TakeAssignKeeps(G, bs, bs1, ins, bs1, inodes[..], o, i, bn, addr, -1);
        SameSlots(G, bs, bs1, ins, bs1, inodes[..], o, i, bn, addr);
        ow := ow[addr := (i, bn)];
        pend := pend - {addr};
      }
    }

    /** bmap() loads the indirect block, allocating it if necessary. */
    method LoadIndirect(i: int) returns (addr: int)
      requires Valid() && pend == {} && 0 <= i < inodes.Length
      modifies this, blocks, inodes
      ensures Valid() && pend == {}
      ensures AllKept(G, old(blocks[..]), old(inodes[..]), blocks[..], inodes[..])
      ensures addr == -1 <==> old(inodes[i].addrs[G.ndirect]) == 0 && FreeBlocks(G, old(blocks[..])) == {}
      ensures addr != -1 ==> addr > 0 && inodes[i].addrs[G.ndirect] == addr
      ensures addr == -1 || old(inodes[i].addrs[G.ndirect]) != 0 ==>
        blocks[..] == old(blocks[..]) && inodes[..] == old(inodes[..]) && logged == old(logged)
      ensures addr != -1 && old(inodes[i].addrs[G.ndirect]) == 0 ==>
        logged == old(logged) + {addr, G.BitBlock(addr)} && addr in FreeBlocks(G, old(blocks[..])) &&
        FreeBlocks(G, blocks[..]) == FreeBlocks(G, old(blocks[..])) - {addr}
      ensures SlotsBut(G, old(blocks[..]), old(inodes[i]), blocks[..], inodes[i], G.Maxfile()) && Recorded(old(blocks[..]), blocks[..], logged)
      ensures forall j :: 0 <= j < inodes.Length && j != i ==> inodes[j] == old(inodes[j])
    {
      hide Used, BitmapOk, FreeBlocks, SameOwned, SlotsBut;
      ghost var bs, ins, o := blocks[..], inodes[..], ow;
      KeptRefl(G, bs, ins);
      ButRefl(G, bs, ins[i], G.Maxfile());
      addr := inodes[i].addrs[G.ndirect];
      if addr != 0 {
        SlotOwned(G, bs, ins, ow, pend, i, G.Maxfile());
      } else {
        addr := Balloc();
        if addr == -1 { return; }
        AssignIndirect(G, blocks[..], ins, ow, pend, i, addr);
        ghost var bs1 := blocks[..];
        inodes[i] := inodes[i].(addrs := inodes[i].addrs[G.ndirect := addr]);
        TakeAssignKeeps(G, bs, bs1, ins, bs1, inodes[..], o, i, G.Maxfile(), addr, -1);
        SameSlots(G, bs, bs1, ins, bs1, inodes[..], o, i, G.Maxfile(), addr);
        ow := ow[addr := (i, G.Maxfile())];
        pend := pend - {addr};
      }
    }

    /** bmap() looks the block up in the indirect block, allocating it if necessary. */
    method LoadEntry(i: int, bn: nat) returns (addr: int)
      requires Valid() && pend == {} && 0 <= i < inodes.Length && G.ndirect <= bn < G.Maxfile() && inodes[i].addrs[G.ndirect] != 0
      modifies this, blocks
      ensures Valid() && pend == {}
      ensures AllKept(G, old(blocks[..]), inodes[..], blocks[..], inodes[..])
      ensures addr == -1 <==> old(Slot(G, blocks[..], inodes[i], bn)) == 0 && FreeBlocks(G, old(blocks[..])) == {}
      ensures addr != -1 ==> addr > 0 && Slot(G, blocks[..], inodes[i], bn) == addr
      ensures addr == -1 || old(Slot(G, blocks[..], inodes[i], bn)) != 0 ==> blocks[..] == old(blocks[..]) && logged == old(logged)
      ensures addr != -1 && old(Slot(G, blocks[..], inodes[i], bn)) == 0 ==>
        logged == old(logged) + {addr, G.BitBlock(addr), inodes[i].addrs[G.ndirect]} && addr in FreeBlocks(G, old(blocks[..])) &&
        FreeBlocks(G, blocks[..]) == FreeBlocks(G, old(blocks[..])) - {addr}
      ensures SlotsBut(G, old(blocks[..]), inodes[i], blocks[..], inodes[i], bn) && Recorded(old(blocks[..]), blocks[..], logged)
    {
      hide Used, BitmapOk, FreeBlocks, SameOwned, OwnOk, SlotsBut;
      ghost var bs, o := blocks[..], ow;
      ghost var ins := inodes[..];
      KeptRefl(G, bs, ins);
      ButRefl(G, bs, ins[i], bn);
      IndirectThere(G, bs, ins, ow, pend, i, bn);
      var ind := inodes[i].addrs[G.ndirect];
      addr := Word(blocks[ind], bn - G.ndirect);
      if addr == 0 {
        addr := Balloc();
        if addr == -1 { return; }
        ghost var bs1 := blocks[..];
        SlotsSame(G, bs, bs1, ins, ow, i, bn);
        AssignEntry(G, bs1, ins, ow, pend, i, bn, addr);
        FreeEntry(G, bs1, ins, ow, pend, i, bn, addr);
        blocks[ind] := SetWord(blocks[ind], bn - G.ndirect, addr);
        TakeAssignKeeps(G, bs, bs1, ins, blocks[..], ins, o, i, bn, addr, ind);
        SameSlots(G, bs, bs1, ins, blocks[..], ins, o, i, bn, addr);
        ow := ow[addr := (i, bn)];
        pend := pend - {addr};
        logged := logged + {ind};
      }
    }

    /** bmap(): the block that holds the bn-th block of the file, allocated if there is none; -1 where it panics. */
    method Bmap(i: int, bn: nat) returns (addr: int)
      requires Valid() && pend == {} && 0 <= i < inodes.Length
      modifies this, blocks, inodes
      ensures Valid() && pend == {}
      ensures AllKept(G, old(blocks[..]), old(inodes[..]), blocks[..], inodes[..])
      ensures addr == -1 <==> bn >= G.Maxfile() || |FreeBlocks(G, old(blocks[..]))| < old(Needs(G, blocks[..], inodes[i], bn))
      ensures addr != -1 ==> addr > 0 && Slot(G, blocks[..], inodes[i], bn) == addr
      ensures addr != -1 ==> Filled(G, old(blocks[..]), old(inodes[i]), blocks[..], inodes[i], bn)
      ensures bn < G.Maxfile() && old(Slot(G, blocks[..], inodes[i], bn)) != 0 ==>
        blocks[..] == old(blocks[..]) && inodes[..] == old(inodes[..]) && logged == old(logged)
      ensures addr != -1 ==> |FreeBlocks(G, blocks[..])| == |FreeBlocks(G, old(blocks[..]))| - old(Needs(G, blocks[..], inodes[i], bn))
      ensures old(logged) <= logged && Recorded(old(blocks[..]), blocks[..], logged)
      ensures addr != -1 ==> logged <= old(logged) + {addr, G.BitBlock(addr)} + IndirectLog(G, inodes[i].addrs[G.ndirect])
      ensures forall j :: 0 <= j < inodes.Length && j != i ==> inodes[j] == old(inodes[j])
    {
      hide FsOk, FreeBlocks, SlotsBut, Filled, AllKept, Slot, Recorded;
      ghost var bs, ins, lg := blocks[..], inodes[..], logged;
      FsFacts(G, bs, ins, ow, pend);
      IndirectSlot(G, bs, ins[i], bn);
      if bn < G.ndirect {
        addr := BmapDirect(i, bn);
        FsFacts(G, blocks[..], inodes[..], ow, pend);
        FilledDirect(G, bs, ins[i], blocks[..], inodes[i], bn);
      } else if bn < G.Maxfile() {
        addr := LoadIndirect(i);
        if addr == -1 { return; }
        ghost var bs1, ins1, lg1 := blocks[..], inodes[..], logged;
        FsFacts(G, bs1, ins1, ow, pend);
        IndirectSlot(G, bs1, ins1[i], bn);
        ButAt(G, bs, ins[i], bs1, ins1[i], G.Maxfile(), bn);
        addr := LoadEntry(i, bn);
        FsFacts(G, blocks[..], inodes[..], ow, pend);
        KeptTrans(G, bs, ins, bs1, ins1, blocks[..], ins1);
        RecordedTrans(bs, bs1, blocks[..], lg1, logged);
        FilledEntry(G, bs, ins[i], bs1, ins1[i], blocks[..], bn);
      } else {
        KeptRefl(G, bs, ins);
        RecordedRefl(bs, lg);
        addr := -1;
      }
    }

    /** bfree(): clears the block's bit; false where it panics because the block is free already. */
    method Bfree(b: nat) returns (ok: bool)
      requires Usable() && b < G.size
      modifies blocks, this`logged
      ensures ok <==> old(Used(G, blocks[..], b))
      ensures ok ==> blocks[..] == Flip(G, old(blocks[..]), b, -Mask(G.BitNo(b))) && logged == old(logged) + {G.BitBlock(b)}
      ensures !ok ==> blocks[..] == old(blocks[..]) && logged == old(logged)
    {
      hide Used, BlocksOk;
      UsedBit(G, blocks[..], b);
      var bp, bi := G.BitBlock(b), b % G.Bpb();
      if !Bit(blocks[bp][bi / 8], bi % 8) { return false; }
      blocks[bp] := blocks[bp][bi / 8 := blocks[bp][bi / 8] - Mask(bi % 8)];
      logged := logged + {bp};
      ok := true;
    }

    /** iupdate(): the inode goes to its entry of its block on disk.  That block is logged, and neither another entry of it nor
        another block of the inode area changes. */
    method Iupdate(i: int)
      requires 0 <= i < inodes.Length == dinodes.Length && ipb > 0
      modifies this`logged, dinodes
      ensures 0 <= i / ipb && i % ipb < |InodeBlock(old(dinodes[..]), ipb, i / ipb)|
      ensures InodeBlock(dinodes[..], ipb, i / ipb) == InodeBlock(old(dinodes[..]), ipb, i / ipb)[i % ipb := inodes[i]]
      ensures InodesRecorded(ipb, inodestart, old(dinodes[..]), dinodes[..], logged)
      ensures dinodes[..] == old(dinodes[..])[i := inodes[i]] && logged == old(logged) + {i / ipb + inodestart}
    {
      hide InodeBlock;
      ghost var dins := dinodes[..];
      InodePlace(dins, ipb, i, inodes[i], i / ipb);
      dinodes[i] := inodes[i];
      logged := logged + {i / ipb + inodestart};
      OneInode(ipb, inodestart, dins, dinodes[..], i, logged);
    }

    /** itrunc() frees a direct block. */
    method FreeDirect(i: int, k: nat) returns (ok: bool)
      requires Valid() && pend == {} && 0 <= i < inodes.Length && k < G.ndirect && inodes[i].addrs[k] != 0
      modifies this`ow, this`logged, blocks, inodes
      ensures ok && Valid() && ow == old(ow) - {old(inodes[i].addrs[k])}
      ensures inodes[..] == old(inodes[..])[i := old(inodes[i]).(addrs := old(inodes[i].addrs)[k := 0])]
      ensures OthersKept(G, old(blocks[..]), old(inodes[..]), blocks[..], inodes[..], i)
      ensures old(logged) <= logged <= old(logged) + BitArea(G) && Recorded(old(blocks[..]), blocks[..], logged)
    {
      hide OwnOk, BitmapOk, Used, SameOwned, KeepsFile, BitArea;
      ghost var bs, ins := blocks[..], inodes[..];
      var b := inodes[i].addrs[k];
      ghost var ins', ow' := ins[i := ins[i].(addrs := ins[i].addrs[k := 0])], ow - {b};
      IndirectSlot(G, bs, ins[i], k);
      SlotOwned(G, bs, ins, ow, pend, i, k);
      DetachDirect(G, bs, ins, ow, pend, i, k);
      FreeBlock(G, bs, ins', ow', pend + {b}, b);
      InBitArea(G, b);
      ok := Bfree(b);
      if !ok { return; }
      OthersFrame(G, bs, blocks[..], ins, ins', ow', pend + {b}, i);
      assert pend + {b} - {b} == pend;
      inodes[i] := inodes[i].(addrs := inodes[i].addrs[k := 0]);
      ow := ow';
    }

    /** itrunc() frees the blocks that the indirect block lists.  They are `pend` already in the ghost state. */
    method FreeEntries(i: int, ind: int, ghost ins: seq<Inode>, ghost o: Owners) returns (ok: bool)
      requires 0 <= i < |ins| && FsOk(G, blocks[..], ins, ow, pend) && Listed(G, blocks[..], o, pend, i, ind, 0)
      modifies this`pend, this`logged, blocks
      ensures ok && FsOk(G, blocks[..], ins, ow, pend) && pend == {ind}
      ensures SameOwned(old(blocks[..]), blocks[..], ow)
      ensures old(logged) <= logged <= old(logged) + BitArea(G) && Recorded(old(blocks[..]), blocks[..], logged)
    {
      hide OwnOk, BitmapOk, Used, SameOwned, Listed, Recorded, BitArea;
      ok := true;
      ghost var bs := blocks[..];
      SameRefl(bs, ow);
      RecordedRefl(bs, logged);
      var j := 0;
      while j < G.Nindirect()
        invariant 0 <= j <= G.Nindirect()
        invariant FsOk(G, blocks[..], ins, ow, pend) && Listed(G, blocks[..], o, pend, i, ind, j)
        invariant SameOwned(bs, blocks[..], ow) && Recorded(bs, blocks[..], logged) && old(logged) <= logged <= old(logged) + BitArea(G)
        invariant ok
      {
        ListedAt(G, blocks[..], ins, o, ow, pend, i, ind, j);
        var b := Word(blocks[ind], j);
        ghost var bs1, lg1 := blocks[..], logged;
        if b != 0 {
          FreeBlock(G, bs1, ins, ow, pend, b);
          FlipFrame(G, bs1, b, -Mask(G.BitNo(b)));
          InBitArea(G, b);
          ok := Bfree(b);
          if !ok { return; }
          SameTrans(bs, bs1, blocks[..], ow);
          RecordedFlip(G, bs1, b, -Mask(G.BitNo(b)), logged);
          RecordedTrans(bs, bs1, blocks[..], lg1, logged);
        }
        ListedNext(G, bs1, blocks[..], ins, o, ow, pend, i, ind, j);
        pend := pend - {b};
        j := j + 1;
      }
      ListedEnd(G, blocks[..], o, pend, i, ind);
    }

    /** itrunc() frees the indirect block and everything it lists. */
    method FreeIndirect(i: int) returns (ok: bool)
      requires Valid() && pend == {} && 0 <= i < inodes.Length && inodes[i].addrs[G.ndirect] != 0
      modifies this`ow, this`pend, this`logged, blocks, inodes
      ensures ok && Valid() && pend == {} && ow == old(ow) - IndirectSet(G, old(ow), i)
      ensures inodes[..] == old(inodes[..])[i := old(inodes[i]).(addrs := old(inodes[i].addrs)[G.ndirect := 0])]
      ensures OthersKept(G, old(blocks[..]), old(inodes[..]), blocks[..], inodes[..], i)
      ensures old(logged) <= logged <= old(logged) + BitArea(G) && Recorded(old(blocks[..]), blocks[..], logged)
    {
      hide FsOk, Used, SameOwned, OthersKept, Listed, Recorded, IndirectSet, BitArea;
      ghost var bs, ins, o := blocks[..], inodes[..], ow;
      FsFacts(G, bs, ins, ow, {});
      IndirectSlot(G, bs, ins[i], 0);
      SlotOwned(G, bs, ins, ow, {}, i, G.Maxfile());
      var ind := inodes[i].addrs[G.ndirect];
      ghost var ins' := ins[i := ins[i].(addrs := ins[i].addrs[G.ndirect := 0])];
      ListedStart(G, bs, ins, ow, i);
      DetachIndirect(G, bs, ins, ow, {}, i);
      ghost var S := IndirectSet(G, ow, i);
      assert {} + S == S && {ind} - {ind} == {};
      ow := ow - S;
      pend := S;
      ok := FreeEntries(i, ind, ins', o);
      if !ok { return; }
      ghost var bs1, lg1 := blocks[..], logged;
      FsFacts(G, bs1, ins', ow, pend);
      FreeBlock(G, bs1, ins', ow, pend, ind);
      InBitArea(G, ind);
      ok := Bfree(ind);
      if !ok { return; }
      RecordedFlip(G, bs1, ind, -Mask(G.BitNo(ind)), logged);
      RecordedTrans(bs, bs1, blocks[..], lg1, logged);
      SameTrans(bs, bs1, blocks[..], ow);
      OthersFrame(G, bs, blocks[..], ins, ins', ow, S, i);
      inodes[i] := inodes[i].(addrs := inodes[i].addrs[G.ndirect := 0]);
      pend := {};
    }

    /** itrunc()'s loop over the direct blocks. */
    method FreeDirects(i: int) returns (ok: bool)
      requires Valid() && pend == {} && 0 <= i < inodes.Length
      modifies this`ow, this`logged, blocks, inodes
      ensures ok && Valid() && ow == old(ow) - DirectSet(old(ow), i, G.ndirect)
      ensures Emptied(old(inodes[..]), inodes[..], i, G.ndirect)
      ensures OthersKept(G, old(blocks[..]), old(inodes[..]), blocks[..], inodes[..], i)
      ensures old(logged) <= logged <= old(logged) + BitArea(G) && Recorded(old(blocks[..]), blocks[..], logged)
    {
      hide FsOk, OthersKept, Recorded, DirectSet, Emptied, BitArea;
      ok := true;
      ghost var bs, ins, o := blocks[..], inodes[..], ow;
      FsFacts(G, bs, ins, o, {});
      EmptiedStart(ins, i);
      RecordedRefl(bs, logged);
      OthersRefl(G, bs, ins, i);
      assert o - DirectSet(o, i, 0) == o by { NoneBelow(G, bs, ins, o, i); }
      var k := 0;
      while k < G.ndirect
        invariant 0 <= k <= G.ndirect && Valid() && ow == o - DirectSet(o, i, k)
        invariant Emptied(ins, inodes[..], i, k)
        invariant OthersKept(G, bs, ins, blocks[..], inodes[..], i)
        invariant ok && old(logged) <= logged <= old(logged) + BitArea(G) && Recorded(bs, blocks[..], logged)
      {
        ghost var bs1, ins1, lg1 := blocks[..], inodes[..], logged;
        EmptiedStep(ins, ins1, i, k);
        DirectStep(G, bs, ins, o, i, k);
        if inodes[i].addrs[k] != 0 {
          OwnersStep(o, DirectSet(o, i, k), inodes[i].addrs[k]);
          ok := FreeDirect(i, k);
          if !ok { return; }
          OthersTrans(G, bs, ins, bs1, ins1, blocks[..], inodes[..], i);
          RecordedTrans(bs, bs1, blocks[..], lg1, logged);
        }
        k := k + 1;
      }
    }

    /** itrunc(): every block of the file becomes free and its contents are gone, on disk as well; "freeing free block" cannot happen. */
    method Itrunc(i: int) returns (ok: bool)
      requires Valid() && pend == {} && 0 <= i < inodes.Length == dinodes.Length && ipb > 0 && dinodes != inodes
      modifies this`ow, this`pend, this`logged, blocks, inodes, dinodes
      ensures ok && Valid() && pend == {}
      ensures FreeBlocks(G, blocks[..]) == FreeBlocks(G, old(blocks[..])) + OwnedBy(old(ow), i) && ow == old(ow) - OwnedBy(old(ow), i)
      ensures inodes[i] == Inode(old(inodes[i].dev), 0, seq(G.ndirect + 1, _ => 0)) && dinodes[..] == old(dinodes[..])[i := inodes[i]]
      ensures OthersKept(G, old(blocks[..]), old(inodes[..]), blocks[..], inodes[..], i)
      ensures old(logged) <= logged && Recorded(old(blocks[..]), blocks[..], logged)
      ensures InodesRecorded(ipb, inodestart, old(dinodes[..]), dinodes[..], logged)
      ensures |logged - old(logged)| <= (G.size - 1) / G.Bpb() + 2
    {
      hide FsOk, OthersKept, Recorded, DirectSet, OwnedBy, FreeBlocks, IndirectSet, BitArea, InodesRecorded, InodeBlock;
      ghost var bs, ins, o := blocks[..], inodes[..], ow;
      FsFacts(G, bs, ins, o, {});
      ok := FreeDirects(i);
      if !ok { return; }
      ghost var bs1, ins1, lg1 := blocks[..], inodes[..], logged;
      OwnedSplit(G, o, ow, i);
      if inodes[i].addrs[G.ndirect] != 0 {
        ok := FreeIndirect(i);
        if !ok { return; }
        OthersTrans(G, bs, ins, bs1, ins1, blocks[..], inodes[..], i);
        RecordedTrans(bs, bs1, blocks[..], lg1, logged);
      } else {
        NoIndirect(G, bs1, ins1, ow, i);
        assert ow - {} == ow;
      }
      ghost var ins2 := inodes[..];
      FreedBlocks(G, bs, ins, o, blocks[..], ins2, i);
      assert inodes[i].addrs == seq(G.ndirect + 1, _ => 0);
      inodes[i] := inodes[i].(size := 0);
      Resized(G, blocks[..], ins2, ow, {}, i, 0);
      OthersResized(G, bs, ins, blocks[..], ins2, i, 0);
      ghost var lg2 := logged;
      Iupdate(i);
      RecordedRefl(blocks[..], logged);
      RecordedTrans(bs, blocks[..], blocks[..], lg2, logged);
      FewLogged(old(logged), logged, BitArea(G), i / ipb + inodestart);
    }
  }
}
