/** The inode content layer of fs.c as data: where a file's blocks are, which
    blocks are in use, and which bytes a file has.  Class FileSystem in module
    InodeLayer updates this data. */
module Inodes {
  import opened Arith
  import opened BlockCodec

  /** Sizes and places of a file system; `datastart` is the first block that is not boot block, super block, log, inodes
      or bitmap. */
  datatype Geometry = Geometry(bsize: nat, ndirect: nat, size: nat, bmapstart: nat, datastart: nat) {
    ghost predicate Ok() {
      && bsize >= 4 && 0 < datastart <= size < 0x1_0000_0000
      && (forall b :: 0 <= b < size ==> BitBlock(b) < datastart)
    }

    function Bpb(): nat { 8 * bsize }
    function Nindirect(): nat { bsize / 4 }
    function Maxfile(): nat { ndirect + Nindirect() }

    /** The bitmap block, byte and bit of a block. */
    function BitBlock(b: nat): nat
      requires bsize > 0
    {
      DivNonNeg(b, Bpb());
      bmapstart + b / Bpb()
    }

    function BitByte(b: nat): nat
      requires bsize > 0
    {
      (b % Bpb()) / 8
    }

    function BitNo(b: nat): nat
      requires bsize > 0
    {
      (b % Bpb()) % 8
    }
  }

  /** struct inode, without its locks and counts. */
  datatype Inode = Inode(dev: bool, size: int, addrs: seq<int>)

  // ---------------------------------------------------------------- bitmap

  ghost predicate BlocksOk(G: Geometry, bs: seq<Bytes>) {
    |bs| == G.size && forall b :: 0 <= b < |bs| ==> |bs[b]| == G.bsize && AreBytes(bs[b])
  }

  lemma {:induction false} BitPlace(G: Geometry, b: nat)
    requires G.bsize > 0
    ensures G.BitByte(b) < G.bsize && G.BitNo(b) < 8
    ensures b == (b / G.Bpb()) * G.Bpb() + 8 * G.BitByte(b) + G.BitNo(b)
  {
  }

  lemma {:induction false} SamePlace(G: Geometry, b: nat, c: nat)
    requires G.bsize > 0
    requires G.BitBlock(b) == G.BitBlock(c) && G.BitByte(b) == G.BitByte(c) && G.BitNo(b) == G.BitNo(c)
    ensures b == c
  {
    BitPlace(G, b);
    BitPlace(G, c);
  }

  /** The bitmap says block b is in use. */
  ghost predicate Used(G: Geometry, bs: seq<Bytes>, b: nat)
    requires G.Ok() && BlocksOk(G, bs) && b < G.size
  {
    BitPlace(G, b);
    Bit(bs[G.BitBlock(b)][G.BitByte(b)], G.BitNo(b))
  }

  /** bs with the byte of the bitmap that holds b's bit changed by d. */
  function Flip(G: Geometry, bs: seq<Bytes>, b: nat, d: int): seq<Bytes>
    requires G.bsize > 0 && G.BitBlock(b) < |bs| && G.BitByte(b) < |bs[G.BitBlock(b)]|
  {
    var x := bs[G.BitBlock(b)];
    bs[G.BitBlock(b) := x[G.BitByte(b) := x[G.BitByte(b)] + d]]
  }

  lemma {:induction false} MarkUsed(G: Geometry, bs: seq<Bytes>, b: nat)
    requires G.Ok() && BlocksOk(G, bs) && b < G.size && !Used(G, bs, b)
    ensures G.BitBlock(b) < |bs| && G.BitByte(b) < |bs[G.BitBlock(b)]|
    ensures BlocksOk(G, Flip(G, bs, b, Mask(G.BitNo(b))))
    ensures forall c :: 0 <= c < G.size ==> (Used(G, Flip(G, bs, b, Mask(G.BitNo(b))), c) <==> c == b || Used(G, bs, c))
  {
    BitPlace(G, b);
    var k := G.BitNo(b);
    var x := bs[G.BitBlock(b)][G.BitByte(b)];
    MaskByte();
    BitSetBound(x, k, 8);
    var bs' := Flip(G, bs, b, Mask(k));
    assert BlocksOk(G, bs');
    forall c | 0 <= c < G.size ensures Used(G, bs', c) <==> c == b || Used(G, bs, c) {
      BitPlace(G, c);
      BitSet(x, k, G.BitNo(c));
      if G.BitBlock(b) == G.BitBlock(c) && G.BitByte(b) == G.BitByte(c) && G.BitNo(b) == G.BitNo(c) { SamePlace(G, b, c); }
    }
  }

  lemma {:induction false} MarkFree(G: Geometry, bs: seq<Bytes>, b: nat)
    requires G.Ok() && BlocksOk(G, bs) && b < G.size && Used(G, bs, b)
    ensures G.BitBlock(b) < |bs| && G.BitByte(b) < |bs[G.BitBlock(b)]|
    ensures BlocksOk(G, Flip(G, bs, b, -Mask(G.BitNo(b))))
    ensures forall c :: 0 <= c < G.size ==> (Used(G, Flip(G, bs, b, -Mask(G.BitNo(b))), c) <==> c != b && Used(G, bs, c))
  {
    BitPlace(G, b);
    var k := G.BitNo(b);
    var x := bs[G.BitBlock(b)][G.BitByte(b)];
    BitCleared(x, k, 0);
    var bs' := Flip(G, bs, b, -Mask(k));
    assert BlocksOk(G, bs');
    forall c | 0 <= c < G.size ensures Used(G, bs', c) <==> c != b && Used(G, bs, c) {
      BitPlace(G, c);
      BitCleared(x, k, G.BitNo(c));
      if G.BitBlock(b) == G.BitBlock(c) && G.BitByte(b) == G.BitByte(c) && G.BitNo(b) == G.BitNo(c) { SamePlace(G, b, c); }
    }
  }

  /** Changing a block of the data area leaves the bitmap alone. */
  lemma {:induction false} UsedFrame(G: Geometry, bs: seq<Bytes>, b: nat, x: Bytes)
    requires G.Ok() && BlocksOk(G, bs) && G.datastart <= b < G.size && |x| == G.bsize && AreBytes(x)
    ensures BlocksOk(G, bs[b := x])
    ensures forall c :: 0 <= c < G.size ==> (Used(G, bs[b := x], c) <==> Used(G, bs, c))
  {
  }

  // ---------------------------------------------------------------- ownership

  /** The block in slot k of an inode, or 0: k < Maxfile() is the k-th block of the file, k == Maxfile() the indirect
      block. */
  ghost function Slot(G: Geometry, bs: seq<Bytes>, ip: Inode, k: nat): int {
    if |ip.addrs| != G.ndirect + 1 then 0
    else if k < G.ndirect then ip.addrs[k]
    else
      var a := ip.addrs[G.ndirect];
      if k == G.Maxfile() then a
      else if 0 < a < |bs| && 4 * (k - G.ndirect) + 4 <= |bs[a]| then Word(bs[a], k - G.ndirect)
      else 0
  }

  type Owners = map<int, (int, int)>

  ghost predicate SlotNo(G: Geometry, n: nat, i: int, k: int) { 0 <= i < n && 0 <= k <= G.Maxfile() }

  /** Every block in a slot belongs to that slot and to no other. */
  ghost predicate OwnOk(G: Geometry, bs: seq<Bytes>, ins: seq<Inode>, ow: Owners) {
    && (forall i, k {:trigger Slot(G, bs, ins[i], k)} :: SlotNo(G, |ins|, i, k) && Slot(G, bs, ins[i], k) != 0 ==>
          Slot(G, bs, ins[i], k) in ow && ow[Slot(G, bs, ins[i], k)] == (i, k))
    && (forall b :: b in ow ==> G.datastart <= b < G.size && SlotNo(G, |ins|, ow[b].0, ow[b].1) && Slot(G, bs, ins[ow[b].0], ow[b].1) == b)
  }

  /** The bitmap has exactly the metadata blocks, the owned blocks and the blocks of `pend` in use. */
  ghost predicate BitmapOk(G: Geometry, bs: seq<Bytes>, ow: Owners, pend: set<int>)
    requires G.Ok() && BlocksOk(G, bs)
  {
    && pend !! ow.Keys && (forall b :: b in pend ==> G.datastart <= b < G.size)
    && forall b :: 0 <= b < G.size ==> (Used(G, bs, b) <==> b < G.datastart || b in ow || b in pend)
  }

  ghost predicate FsOk(G: Geometry, bs: seq<Bytes>, ins: seq<Inode>, ow: Owners, pend: set<int>) {
    && G.Ok() && BlocksOk(G, bs)
    && (forall i :: 0 <= i < |ins| ==> |ins[i].addrs| == G.ndirect + 1)
    && OwnOk(G, bs, ins, ow) && BitmapOk(G, bs, ow, pend)
  }

  // ---------------------------------------------------------------- contents

  /** Every block that the size of the file reaches is there. */
  ghost predicate HoleFree(G: Geometry, bs: seq<Bytes>, ip: Inode) {
    && 0 <= ip.size <= G.Maxfile() * G.bsize
    && forall k :: 0 <= k && k * G.bsize < ip.size ==> Slot(G, bs, ip, k) != 0
  }

  ghost function ByteAt(G: Geometry, bs: seq<Bytes>, ip: Inode, off: nat): int
    requires G.bsize > 0
  {
    var a := Slot(G, bs, ip, off / G.bsize);
    if 0 <= a < |bs| && off % G.bsize < |bs[a]| then bs[a][off % G.bsize] else 0
  }

  /** A file is a sequence of bytes. */
  ghost function Contents(G: Geometry, bs: seq<Bytes>, ip: Inode): (r: seq<int>)
    requires G.bsize > 0 && ip.size >= 0
    ensures |r| == ip.size
  {
    seq(ip.size, off requires 0 <= off < ip.size => ByteAt(G, bs, ip, off))
  }

  /** Blocks that are in a slot stay there, and data blocks keep their bytes. */
  ghost predicate KeepsFile(G: Geometry, bs: seq<Bytes>, ip: Inode, bs': seq<Bytes>, ip': Inode) {
    && |bs'| == |bs| && ip'.size == ip.size && ip'.dev == ip.dev
    && forall k :: 0 <= k < G.Maxfile() && Slot(G, bs, ip, k) != 0 ==>
        Slot(G, bs', ip', k) == Slot(G, bs, ip, k) && (0 <= Slot(G, bs, ip, k) < |bs| ==> bs'[Slot(G, bs, ip, k)] == bs[Slot(G, bs, ip, k)])
  }

  lemma {:induction false} SlotBelow(G: Geometry, off: nat, size: nat)
    requires G.bsize > 0 && off < size <= G.Maxfile() * G.bsize
    ensures 0 <= off / G.bsize < G.Maxfile() && (off / G.bsize) * G.bsize <= off < (off / G.bsize) * G.bsize + G.bsize
  {
    DivBounds(off, G.bsize);
    DivBelow(off / G.bsize, G.bsize, G.Maxfile(), off);
  }

  /** A hole-free file keeps its contents. */
  lemma {:induction false} ContentsKept(G: Geometry, bs: seq<Bytes>, ip: Inode, bs': seq<Bytes>, ip': Inode)
    requires G.bsize > 0 && HoleFree(G, bs, ip) && KeepsFile(G, bs, ip, bs', ip')
    ensures HoleFree(G, bs', ip') && Contents(G, bs', ip') == Contents(G, bs, ip)
  {
    forall k | 0 <= k && k * G.bsize < ip.size ensures Slot(G, bs', ip', k) != 0 {
      if k >= G.Maxfile() { MulMono(G.Maxfile(), k, G.bsize); }
    }
    forall off | 0 <= off < ip.size ensures ByteAt(G, bs', ip', off) == ByteAt(G, bs, ip, off) {
      SlotBelow(G, off, ip.size);
    }
  }

  // ---------------------------------------------------------------- steps on ownership

  /** The blocks of bs and bs' agree wherever ow says somebody owns them. */
  ghost predicate SameOwned(bs: seq<Bytes>, bs': seq<Bytes>, ow: Owners) {
    |bs'| == |bs| && forall b :: b in ow && 0 <= b < |bs| ==> bs'[b] == bs[b]
  }

  /** Inodes read only owned blocks. */
  lemma {:induction false} SlotsSame(G: Geometry, bs: seq<Bytes>, bs': seq<Bytes>, ins: seq<Inode>, ow: Owners, i: int, k: int)
    requires OwnOk(G, bs, ins, ow) && SameOwned(bs, bs', ow) && SlotNo(G, |ins|, i, k)
    ensures Slot(G, bs', ins[i], k) == Slot(G, bs, ins[i], k)
  {
    var a := Slot(G, bs, ins[i], G.Maxfile());
    assert SlotNo(G, |ins|, i, G.Maxfile());
    assert a != 0 ==> a in ow;
  }

  lemma {:induction false} OwnFrame(G: Geometry, bs: seq<Bytes>, bs': seq<Bytes>, ins: seq<Inode>, ow: Owners)
    requires OwnOk(G, bs, ins, ow) && SameOwned(bs, bs', ow)
    ensures OwnOk(G, bs', ins, ow)
  {
    forall i, k | SlotNo(G, |ins|, i, k) ensures Slot(G, bs', ins[i], k) == Slot(G, bs, ins[i], k) {
      SlotsSame(G, bs, bs', ins, ow, i, k);
    }
  }

  lemma {:induction false} KeptFrame(G: Geometry, bs: seq<Bytes>, bs': seq<Bytes>, ins: seq<Inode>, ow: Owners, i: int)
    requires OwnOk(G, bs, ins, ow) && SameOwned(bs, bs', ow) && 0 <= i < |ins|
    ensures KeepsFile(G, bs, ins[i], bs', ins[i])
  {
    forall k | 0 <= k < G.Maxfile() && Slot(G, bs, ins[i], k) != 0
      ensures Slot(G, bs', ins[i], k) == Slot(G, bs, ins[i], k) && Slot(G, bs, ins[i], k) in ow
    {
      SlotsSame(G, bs, bs', ins, ow, i, k);
    }
  }

  lemma {:induction false} OwnedData(G: Geometry, bs: seq<Bytes>, ins: seq<Inode>, ow: Owners)
    requires OwnOk(G, bs, ins, ow)
    ensures forall b :: b in ow ==> G.datastart <= b < G.size
  {
    hide Slot;
  }

  /** balloc(): a free block is marked and zeroed.  It was nobody's. */
  lemma {:induction false} TakeBlock(G: Geometry, bs: seq<Bytes>, ins: seq<Inode>, ow: Owners, pend: set<int>, b: nat)
    requires FsOk(G, bs, ins, ow, pend) && b < G.size && !Used(G, bs, b)
    ensures G.BitBlock(b) < |bs| && G.BitByte(b) < |bs[G.BitBlock(b)]|
    ensures var bs' := Flip(G, bs, b, Mask(G.BitNo(b)))[b := Zeros(G.bsize)];
            && FsOk(G, bs', ins, ow, pend + {b}) && SameOwned(bs, bs', ow)
    ensures b >= G.datastart && b !in ow && b !in pend
  {
    hide OwnOk, Used, Zeros;
    OwnedData(G, bs, ins, ow);
    MarkUsed(G, bs, b);
    var bs1 := Flip(G, bs, b, Mask(G.BitNo(b)));
    UsedFrame(G, bs1, b, Zeros(G.bsize));
    var bs' := bs1[b := Zeros(G.bsize)];
    assert SameOwned(bs, bs', ow);
    OwnFrame(G, bs, bs', ins, ow);
    assert BlocksOk(G, bs');
    forall c | 0 <= c < G.size ensures Used(G, bs', c) <==> c < G.datastart || c in ow || c in pend + {b} {
      assert Used(G, bs1, c) <==> c == b || Used(G, bs, c);
      assert Used(G, bs', c) <==> Used(G, bs1, c);
    }
    assert (pend + {b}) !! ow.Keys;
    assert BitmapOk(G, bs', ow, pend + {b});
  }

  /** bfree(): a block that nobody owns any more is marked free. */
  lemma {:induction false} FreeBlock(G: Geometry, bs: seq<Bytes>, ins: seq<Inode>, ow: Owners, pend: set<int>, b: nat)
    requires FsOk(G, bs, ins, ow, pend) && b in pend
    ensures b < G.size && Used(G, bs, b)
    ensures G.BitBlock(b) < |bs| && G.BitByte(b) < |bs[G.BitBlock(b)]|
    ensures var bs' := Flip(G, bs, b, -Mask(G.BitNo(b))); FsOk(G, bs', ins, ow, pend - {b}) && SameOwned(bs, bs', ow)
  {
    hide OwnOk, Used;
    OwnedData(G, bs, ins, ow);
    MarkFree(G, bs, b);
    var bs' := Flip(G, bs, b, -Mask(G.BitNo(b)));
    assert SameOwned(bs, bs', ow);
    OwnFrame(G, bs, bs', ins, ow);
    assert BlocksOk(G, bs');
    forall c | 0 <= c < G.size ensures Used(G, bs', c) <==> c < G.datastart || c in ow || c in pend - {b} {
      assert Used(G, bs', c) <==> c != b && Used(G, bs, c);
    }
    assert (pend - {b}) !! ow.Keys;
    assert BitmapOk(G, bs', ow, pend - {b});
  }

  lemma {:induction false} WriteSlots(G: Geometry, bs: seq<Bytes>, ins: seq<Inode>, ow: Owners, i: int, k: int, a: int, x: Bytes)
    requires OwnOk(G, bs, ins, ow) && 0 <= i < |ins| && 0 <= k < G.Maxfile() && 0 <= a < |bs|
    requires a in ow && ow[a] == (i, k)
    ensures forall j, l :: SlotNo(G, |ins|, j, l) ==> Slot(G, bs[a := x], ins[j], l) == Slot(G, bs, ins[j], l)
  {
    forall j, l | SlotNo(G, |ins|, j, l) ensures Slot(G, bs[a := x], ins[j], l) == Slot(G, bs, ins[j], l) {
      assert SlotNo(G, |ins|, j, G.Maxfile());
      var c := Slot(G, bs, ins[j], G.Maxfile());
      assert c != 0 ==> ow[c] == (j, G.Maxfile());
      assert a != 0 ==> c != a;
    }
  }

  lemma {:induction false} OwnSameSlots(G: Geometry, bs: seq<Bytes>, bs': seq<Bytes>, ins: seq<Inode>, ow: Owners)
    requires OwnOk(G, bs, ins, ow)
    requires forall j, l :: SlotNo(G, |ins|, j, l) ==> Slot(G, bs', ins[j], l) == Slot(G, bs, ins[j], l)
    ensures OwnOk(G, bs', ins, ow)
  {
    hide Slot;
  }

  /** A block in a slot is owned by it. */
  lemma {:induction false} SlotOwned(G: Geometry, bs: seq<Bytes>, ins: seq<Inode>, ow: Owners, pend: set<int>, i: int, k: int)
    requires FsOk(G, bs, ins, ow, pend) && SlotNo(G, |ins|, i, k) && Slot(G, bs, ins[i], k) != 0
    ensures var a := Slot(G, bs, ins[i], k); G.datastart <= a < G.size && |bs| == G.size && a in ow && ow[a] == (i, k)
  {
    hide Slot, BitmapOk;
  }

  /** Writing a data block touches no slot and no other file. */
  lemma {:induction false} WriteBlock(G: Geometry, bs: seq<Bytes>, ins: seq<Inode>, ow: Owners, pend: set<int>, i: int, k: int, x: Bytes)
    requires FsOk(G, bs, ins, ow, pend) && 0 <= i < |ins| && 0 <= k < G.Maxfile() && Slot(G, bs, ins[i], k) != 0
    requires |x| == G.bsize && AreBytes(x)
    ensures var a := Slot(G, bs, ins[i], k);
            && G.datastart <= a < G.size && |bs| == G.size && a in ow && ow[a] == (i, k) && FsOk(G, bs[a := x], ins, ow, pend)
            && (forall j, l :: SlotNo(G, |ins|, j, l) ==> Slot(G, bs[a := x], ins[j], l) == Slot(G, bs, ins[j], l))
  {
    SlotOwned(G, bs, ins, ow, pend, i, k);
    hide Slot, OwnOk, Used;
    var a := Slot(G, bs, ins[i], k);
    UsedFrame(G, bs, a, x);
    WriteSlots(G, bs, ins, ow, i, k, a, x);
    var bs' := bs[a := x];
    OwnSameSlots(G, bs, bs', ins, ow);
    assert BlocksOk(G, bs');
    forall c | 0 <= c < G.size ensures Used(G, bs', c) <==> c < G.datastart || c in ow || c in pend {
      assert Used(G, bs', c) <==> Used(G, bs, c);
    }
    assert BitmapOk(G, bs', ow, pend);
  }

  /** Slot (i, k), empty before, holds b now; every other slot is as it was. */
  ghost predicate Assigned(G: Geometry, bs: seq<Bytes>, ins: seq<Inode>, bs': seq<Bytes>, ins': seq<Inode>, i: int, k: int, b: int) {
    && |ins'| == |ins| && SlotNo(G, |ins|, i, k) && Slot(G, bs, ins[i], k) == 0 && Slot(G, bs', ins'[i], k) == b
    && forall j, l :: SlotNo(G, |ins|, j, l) && (j != i || l != k) ==> Slot(G, bs', ins'[j], l) == Slot(G, bs, ins[j], l)
  }

  lemma {:induction false} OwnAssigned(G: Geometry, bs: seq<Bytes>, ins: seq<Inode>, bs': seq<Bytes>, ins': seq<Inode>, ow: Owners,
                                       i: int, k: int, b: int)
    requires OwnOk(G, bs, ins, ow) && Assigned(G, bs, ins, bs', ins', i, k, b) && b !in ow && 0 < G.datastart <= b < G.size
    ensures OwnOk(G, bs', ins', ow[b := (i, k)])
  {
    hide Slot;
    var ow' := ow[b := (i, k)];
    forall j, l | SlotNo(G, |ins'|, j, l) && Slot(G, bs', ins'[j], l) != 0
      ensures Slot(G, bs', ins'[j], l) in ow' && ow'[Slot(G, bs', ins'[j], l)] == (j, l)
    {
      if j != i || l != k { assert Slot(G, bs', ins'[j], l) == Slot(G, bs, ins[j], l); }
    }
    forall c | c in ow' ensures G.datastart <= c < G.size && SlotNo(G, |ins'|, ow'[c].0, ow'[c].1) && Slot(G, bs', ins'[ow'[c].0], ow'[c].1) == c {
      if c != b {
        assert Slot(G, bs, ins[ow[c].0], ow[c].1) == c;
        assert ow[c].0 != i || ow[c].1 != k;
      }
    }
  }

  lemma {:induction false} BitmapMoved(G: Geometry, bs: seq<Bytes>, ow: Owners, pend: set<int>, b: int, o: (int, int))
    requires G.Ok() && BlocksOk(G, bs) && BitmapOk(G, bs, ow, pend) && b in pend
    ensures BitmapOk(G, bs, ow[b := o], pend - {b})
  {
    hide Used;
    var ow' := ow[b := o];
    assert (pend - {b}) !! ow'.Keys;
    forall c | 0 <= c < G.size ensures Used(G, bs, c) <==> c < G.datastart || c in ow' || c in pend - {b} {
      assert Used(G, bs, c) <==> c < G.datastart || c in ow || c in pend;
    }
  }

  /** bmap() puts a new block into a direct slot. */
  lemma {:induction false} AssignDirect(G: Geometry, bs: seq<Bytes>, ins: seq<Inode>, ow: Owners, pend: set<int>, i: int, k: int, b: int)
    requires FsOk(G, bs, ins, ow, pend) && 0 <= i < |ins| && 0 <= k < G.ndirect && ins[i].addrs[k] == 0 && b in pend
    ensures var ins' := ins[i := ins[i].(addrs := ins[i].addrs[k := b])];
            && FsOk(G, bs, ins', ow[b := (i, k)], pend - {b}) && Assigned(G, bs, ins, bs, ins', i, k, b)
  {
    var ins' := ins[i := ins[i].(addrs := ins[i].addrs[k := b])];
    assert Assigned(G, bs, ins, bs, ins', i, k, b);
    hide Slot, Used, Assigned, BitmapOk;
    PendingData(G, bs, ow, pend, b);
    OwnAssigned(G, bs, ins, bs, ins', ow, i, k, b);
    BitmapMoved(G, bs, ow, pend, b, (i, k));
  }

  lemma {:induction false} PendingData(G: Geometry, bs: seq<Bytes>, ow: Owners, pend: set<int>, b: int)
    requires G.Ok() && BlocksOk(G, bs) && BitmapOk(G, bs, ow, pend) && b in pend
    ensures b !in ow && 0 < G.datastart <= b < G.size
  {
  }

  /** bmap() gives the inode a zeroed indirect block. */
  lemma {:induction false} AssignIndirect(G: Geometry, bs: seq<Bytes>, ins: seq<Inode>, ow: Owners, pend: set<int>, i: int, b: int)
    requires FsOk(G, bs, ins, ow, pend) && 0 <= i < |ins| && ins[i].addrs[G.ndirect] == 0 && b in pend
    requires 0 <= b < |bs| && bs[b] == Zeros(G.bsize)
    ensures var ins' := ins[i := ins[i].(addrs := ins[i].addrs[G.ndirect := b])];
            && FsOk(G, bs, ins', ow[b := (i, G.Maxfile())], pend - {b}) && Assigned(G, bs, ins, bs, ins', i, G.Maxfile(), b)
  {
    var ins' := ins[i := ins[i].(addrs := ins[i].addrs[G.ndirect := b])];
    forall l | 0 <= l < G.Maxfile() ensures Slot(G, bs, ins'[i], l) == Slot(G, bs, ins[i], l) {
      if G.ndirect <= l && 4 * (l - G.ndirect) + 4 <= G.bsize { WordZero(G.bsize, l - G.ndirect); }
    }
    assert Assigned(G, bs, ins, bs, ins', i, G.Maxfile(), b);
    hide Slot, Used, Assigned, BitmapOk;
    PendingData(G, bs, ow, pend, b);
    OwnAssigned(G, bs, ins, bs, ins', ow, i, G.Maxfile(), b);
    BitmapMoved(G, bs, ow, pend, b, (i, G.Maxfile()));
  }

  lemma {:induction false} EntryAssigned(G: Geometry, bs: seq<Bytes>, ins: seq<Inode>, ow: Owners, pend: set<int>, i: int, k: int, b: int)
    requires FsOk(G, bs, ins, ow, pend) && 0 <= i < |ins| && G.ndirect <= k < G.Maxfile() && b in pend
    requires ins[i].addrs[G.ndirect] != 0 && Slot(G, bs, ins[i], k) == 0
    ensures var a := ins[i].addrs[G.ndirect];
            && G.datastart <= a < G.size && |bs| == G.size && |bs[a]| == G.bsize && 4 * (k - G.ndirect) + 4 <= G.bsize
            && Assigned(G, bs, ins, bs[a := SetWord(bs[a], k - G.ndirect, b)], ins, i, k, b)
            && a in ow && ow[a] == (i, G.Maxfile())
  {
    var a := ins[i].addrs[G.ndirect];
    assert SlotNo(G, |ins|, i, G.Maxfile()) && Slot(G, bs, ins[i], G.Maxfile()) == a;
    assert a in ow && ow[a] == (i, G.Maxfile());
    hide Used;
    PendingData(G, bs, ow, pend, b);
    var bs' := bs[a := SetWord(bs[a], k - G.ndirect, b)];
    forall j, l | SlotNo(G, |ins|, j, l) ensures Slot(G, bs', ins[j], l) == if j == i && l == k then b else Slot(G, bs, ins[j], l) {
      if j != i {
        assert SlotNo(G, |ins|, j, G.Maxfile());
        assert Slot(G, bs, ins[j], G.Maxfile()) != 0 ==> ow[Slot(G, bs, ins[j], G.Maxfile())] == (j, G.Maxfile());
      }
      hide Word, SetWord, OwnOk;
      EntrySlot(G, bs, ins[j], a, k, b, l);
    }
    hide Word, SetWord;
  }

  /** Entry k of indirect block a becomes b: seen in slot k of the inode that has the block, and in no other slot. */
  lemma {:induction false} EntrySlot(G: Geometry, bs: seq<Bytes>, ip: Inode, a: int, k: int, b: int, l: nat)
    requires 0 < a < |bs| && |bs[a]| == G.bsize && G.ndirect <= k < G.Maxfile() && 4 * (k - G.ndirect) + 4 <= G.bsize && 0 <= b < 0x1_0000_0000
    requires |ip.addrs| == G.ndirect + 1
    ensures var bs' := bs[a := SetWord(bs[a], k - G.ndirect, b)];
            Slot(G, bs', ip, l) == if ip.addrs[G.ndirect] == a && l == k then b else Slot(G, bs, ip, l)
  {
    if G.ndirect <= l && 4 * (l - G.ndirect) + 4 <= G.bsize { WordSet(bs[a], k - G.ndirect, b, l - G.ndirect); }
    hide Word, SetWord;
  }

  /** bmap() puts a new block into an entry of the indirect block. */
  lemma {:induction false} AssignEntry(G: Geometry, bs: seq<Bytes>, ins: seq<Inode>, ow: Owners, pend: set<int>, i: int, k: int, b: int)
    requires FsOk(G, bs, ins, ow, pend) && 0 <= i < |ins| && G.ndirect <= k < G.Maxfile() && b in pend
    requires ins[i].addrs[G.ndirect] != 0 && Slot(G, bs, ins[i], k) == 0
    ensures var a := ins[i].addrs[G.ndirect];
            && G.datastart <= a < G.size && |bs| == G.size && |bs[a]| == G.bsize && 4 * (k - G.ndirect) + 4 <= G.bsize
            && var bs' := bs[a := SetWord(bs[a], k - G.ndirect, b)];
            && FsOk(G, bs', ins, ow[b := (i, k)], pend - {b}) && Assigned(G, bs, ins, bs', ins, i, k, b) && a in ow && ow[a] == (i, G.Maxfile())
  {
    EntryAssigned(G, bs, ins, ow, pend, i, k, b);
    var a := ins[i].addrs[G.ndirect];
    var x := SetWord(bs[a], k - G.ndirect, b);
    WordSetBytes(bs[a], k - G.ndirect, b);
    UsedFrame(G, bs, a, x);
    hide Slot, Used, Assigned, OwnOk, SetWord;
    PendingData(G, bs, ow, pend, b);
    var bs' := bs[a := x];
    OwnAssigned(G, bs, ins, bs', ins, ow, i, k, b);
    forall c | 0 <= c < G.size ensures Used(G, bs', c) <==> c < G.datastart || c in ow || c in pend {
      assert Used(G, bs', c) <==> Used(G, bs, c);
    }
    assert BitmapOk(G, bs', ow, pend);
    BitmapMoved(G, bs', ow, pend, b, (i, k));
  }

  /** Filling an empty slot keeps every file; x is the block that changed, if any, and it is not a data block. */
  lemma {:induction false} AssignedKeeps(G: Geometry, bs: seq<Bytes>, ins: seq<Inode>, bs': seq<Bytes>, ins': seq<Inode>, ow: Owners,
                                         i: int, k: int, b: int, x: int, j: int)
    requires OwnOk(G, bs, ins, ow) && Assigned(G, bs, ins, bs', ins', i, k, b) && 0 <= j < |ins|
    requires |bs'| == |bs| && (forall c :: 0 <= c < |bs| && c != x ==> bs'[c] == bs[c]) && (x in ow ==> ow[x].1 == G.Maxfile())
    requires ins'[j].size == ins[j].size && ins'[j].dev == ins[j].dev
    ensures KeepsFile(G, bs, ins[j], bs', ins'[j])
  {
    hide Slot;
    forall l | 0 <= l < G.Maxfile() && Slot(G, bs, ins[j], l) != 0
      ensures Slot(G, bs', ins'[j], l) == Slot(G, bs, ins[j], l) && Slot(G, bs, ins[j], l) != x
    {
      assert SlotNo(G, |ins|, j, l);
      assert Slot(G, bs, ins[j], l) in ow && ow[Slot(G, bs, ins[j], l)] == (j, l);
    }
  }

  // ---------------------------------------------------------------- giving blocks up

  /** The slots that held a block of S are empty now; every other slot is as it was. */
  ghost predicate Detached(G: Geometry, bs: seq<Bytes>, ins: seq<Inode>, ins': seq<Inode>, S: set<int>) {
    && |ins'| == |ins|
    && forall j, l :: SlotNo(G, |ins|, j, l) ==>
        Slot(G, bs, ins'[j], l) == if Slot(G, bs, ins[j], l) in S then 0 else Slot(G, bs, ins[j], l)
  }

  lemma {:induction false} OwnDetached(G: Geometry, bs: seq<Bytes>, ins: seq<Inode>, ins': seq<Inode>, ow: Owners, S: set<int>)
    requires OwnOk(G, bs, ins, ow) && Detached(G, bs, ins, ins', S)
    ensures OwnOk(G, bs, ins', ow - S)
  {
    hide Slot;
    var ow' := ow - S;
    forall j, l | SlotNo(G, |ins'|, j, l) && Slot(G, bs, ins'[j], l) != 0
      ensures Slot(G, bs, ins'[j], l) in ow' && ow'[Slot(G, bs, ins'[j], l)] == (j, l)
    {
      assert Slot(G, bs, ins'[j], l) == Slot(G, bs, ins[j], l);
    }
    forall c | c in ow' ensures Slot(G, bs, ins'[ow'[c].0], ow'[c].1) == c {
      assert Slot(G, bs, ins[ow[c].0], ow[c].1) == c;
    }
  }

  lemma {:induction false} BitmapDetached(G: Geometry, bs: seq<Bytes>, ow: Owners, pend: set<int>, S: set<int>)
    requires G.Ok() && BlocksOk(G, bs) && BitmapOk(G, bs, ow, pend) && S <= ow.Keys
    requires forall b :: b in ow ==> G.datastart <= b < G.size
    ensures BitmapOk(G, bs, ow - S, pend + S)
  {
    hide Used;
    var ow' := ow - S;
    assert (pend + S) !! ow'.Keys;
    forall c | 0 <= c < G.size ensures Used(G, bs, c) <==> c < G.datastart || c in ow' || c in pend + S {
      assert Used(G, bs, c) <==> c < G.datastart || c in ow || c in pend;
    }
  }

  lemma {:induction false} FsDetached(G: Geometry, bs: seq<Bytes>, ins: seq<Inode>, ins': seq<Inode>, ow: Owners, pend: set<int>, S: set<int>)
    requires FsOk(G, bs, ins, ow, pend) && Detached(G, bs, ins, ins', S) && S <= ow.Keys
    requires forall j :: 0 <= j < |ins'| ==> |ins'[j].addrs| == G.ndirect + 1
    ensures FsOk(G, bs, ins', ow - S, pend + S)
  {
    hide Slot, Used, OwnOk, BitmapOk, Detached;
    OwnedData(G, bs, ins, ow);
    OwnDetached(G, bs, ins, ins', ow, S);
    BitmapDetached(G, bs, ow, pend, S);
  }

  /** itrunc() empties a direct slot. */
  lemma {:induction false} DetachDirect(G: Geometry, bs: seq<Bytes>, ins: seq<Inode>, ow: Owners, pend: set<int>, i: int, k: int)
    requires FsOk(G, bs, ins, ow, pend) && 0 <= i < |ins| && 0 <= k < G.ndirect && ins[i].addrs[k] != 0
    ensures var b := ins[i].addrs[k];
            FsOk(G, bs, ins[i := ins[i].(addrs := ins[i].addrs[k := 0])], ow - {b}, pend + {b})
  {
    var b, ins' := ins[i].addrs[k], ins[i := ins[i].(addrs := ins[i].addrs[k := 0])];
    assert SlotNo(G, |ins|, i, k) && Slot(G, bs, ins[i], k) == b;
    assert b in ow && ow[b] == (i, k);
    forall j, l | SlotNo(G, |ins|, j, l)
      ensures Slot(G, bs, ins'[j], l) == if Slot(G, bs, ins[j], l) in {b} then 0 else Slot(G, bs, ins[j], l)
    {
      assert Slot(G, bs, ins[j], l) == b ==> ow[b] == (j, l);
    }
    FsDetached(G, bs, ins, ins', ow, pend, {b});
  }

  /** The blocks that inode i reaches through its indirect block, and that block itself. */
  ghost function IndirectSet(G: Geometry, ow: Owners, i: int): set<int> {
    set b | b in ow && ow[b].0 == i && ow[b].1 >= G.ndirect
  }

  /** itrunc() gives up the indirect block and everything it lists. */
  lemma {:induction false} DetachIndirect(G: Geometry, bs: seq<Bytes>, ins: seq<Inode>, ow: Owners, pend: set<int>, i: int)
    requires FsOk(G, bs, ins, ow, pend) && 0 <= i < |ins|
    ensures var S := IndirectSet(G, ow, i);
            FsOk(G, bs, ins[i := ins[i].(addrs := ins[i].addrs[G.ndirect := 0])], ow - S, pend + S)
  {
    var S, ins' := IndirectSet(G, ow, i), ins[i := ins[i].(addrs := ins[i].addrs[G.ndirect := 0])];
    forall j, l | SlotNo(G, |ins|, j, l)
      ensures Slot(G, bs, ins'[j], l) == if Slot(G, bs, ins[j], l) in S then 0 else Slot(G, bs, ins[j], l)
    {
      var c := Slot(G, bs, ins[j], l);
      assert c != 0 ==> c in ow && ow[c] == (j, l);
    }
    FsDetached(G, bs, ins, ins', ow, pend, S);
  }
}
