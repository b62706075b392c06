/** What writei() does to the bytes of a file, one block at a time, and which
    blocks that takes. */
module FileBytes {
  import opened Arith
  import opened BlockCodec
  import opened Inodes
  import opened InodeLayer

  function Max(a: int, b: int): int { if a < b then b else a }

  // ---------------------------------------------------------------- bytes

  /** The contents c after s was written at off. */
  ghost function Spliced(c: seq<int>, off: nat, s: seq<int>): seq<int>
    requires off <= |c|
  {
    c[..off] + s + (if off + |s| < |c| then c[off + |s|..] else [])
  }

  /** memmove() of s to position r of block b. */
  function Patched(b: Bytes, r: nat, s: seq<int>): (x: Bytes)
    requires r + |s| <= |b|
    ensures |x| == |b|
  {
    b[..r] + s + b[r + |s|..]
  }

  lemma {:induction false} PatchedBytes(b: Bytes, r: nat, s: seq<int>)
    requires r + |s| <= |b| && AreBytes(b) && AreBytes(s)
    ensures AreBytes(Patched(b, r, s))
  {
  }

  /** Blocks are there up to byte n. */
  ghost predicate Covered(G: Geometry, bs: seq<Bytes>, ip: Inode, n: int) {
    n <= G.Maxfile() * G.bsize && forall k :: 0 <= k && k * G.bsize < n ==> Slot(G, bs, ip, k) != 0
  }

  /** The first tot bytes of src are in the file at off; the rest of the file is c. */
  ghost predicate Wrote(G: Geometry, bs: seq<Bytes>, ip: Inode, c: seq<int>, off: nat, src: seq<int>, tot: nat)
    requires G.bsize > 0 && off <= |c| && tot <= |src|
  {
    forall p :: 0 <= p < Max(|c|, off + tot) ==> ByteAt(G, bs, ip, p) == if off <= p < off + tot then src[p - off] else c[p]
  }

  lemma {:induction false} CoveredKept(G: Geometry, bs: seq<Bytes>, ip: Inode, bs': seq<Bytes>, ip': Inode, n: nat)
    requires G.bsize > 0 && Covered(G, bs, ip, n) && KeepsFile(G, bs, ip, bs', ip')
    ensures Covered(G, bs', ip', n) && forall p :: 0 <= p < n ==> ByteAt(G, bs', ip', p) == ByteAt(G, bs, ip, p)
  {
    forall k | 0 <= k && k * G.bsize < n ensures Slot(G, bs', ip', k) != 0 {
      if k >= G.Maxfile() { MulMono(G.Maxfile(), k, G.bsize); }
    }
    forall p | 0 <= p < n ensures ByteAt(G, bs', ip', p) == ByteAt(G, bs, ip, p) {
      SlotBelow(G, p, n);
    }
  }

  /** Everything one iteration of writei() keeps, but for what is logged. */
  ghost predicate Progress(G: Geometry, bs0: seq<Bytes>, ins0: seq<Inode>, bs: seq<Bytes>, ins: seq<Inode>, i: int, off: nat, src: seq<int>, tot: nat) {
    && G.bsize > 0 && 0 <= i < |ins0| && OthersKept(G, bs0, ins0, bs, ins, i)
    && 0 <= off <= ins0[i].size == ins[i].size && ins[i].dev == ins0[i].dev && tot <= |src|
    && Covered(G, bs, ins[i], Max(ins0[i].size, off + tot))
    && Wrote(G, bs, ins[i], Contents(G, bs0, ins0[i]), off, src, tot)
  }

  lemma {:induction false} ProgressStart(G: Geometry, bs: seq<Bytes>, ins: seq<Inode>, i: int, off: nat, src: seq<int>)
    requires G.bsize > 0 && 0 <= i < |ins| && HoleFree(G, bs, ins[i]) && off <= ins[i].size
    ensures Progress(G, bs, ins, bs, ins, i, off, src, 0)
  {
    hide Slot;
    OthersRefl(G, bs, ins, i);
  }

  /** bmap() changes no byte. */
  lemma {:induction false} ProgressMapped(G: Geometry, bs0: seq<Bytes>, ins0: seq<Inode>, bs: seq<Bytes>, ins: seq<Inode>,
                                          bs1: seq<Bytes>, ins1: seq<Inode>, i: int, off: nat, src: seq<int>, tot: nat)
    requires Progress(G, bs0, ins0, bs, ins, i, off, src, tot) && AllKept(G, bs, ins, bs1, ins1)
    requires forall j :: 0 <= j < |ins| && j != i ==> ins1[j] == ins[j]
    ensures Progress(G, bs0, ins0, bs1, ins1, i, off, src, tot)
  {
    hide KeepsFile, ByteAt, Covered, Contents;
    assert KeepsFile(G, bs, ins[i], bs1, ins1[i]);
    assert ins1[i].size == ins[i].size && ins1[i].dev == ins[i].dev by { KeepsSize(G, bs, ins[i], bs1, ins1[i]); }
    CoveredKept(G, bs, ins[i], bs1, ins1[i], Max(ins0[i].size, off + tot));
    OthersTrans(G, bs0, ins0, bs, ins, bs1, ins1, i);
  }

  lemma {:induction false} KeepsSize(G: Geometry, bs: seq<Bytes>, ip: Inode, bs': seq<Bytes>, ip': Inode)
    requires KeepsFile(G, bs, ip, bs', ip')
    ensures ip'.size == ip.size && ip'.dev == ip.dev
  {
    hide Slot;
  }

  /** Writing a block leaves the bytes of the file that are in other blocks. */
  lemma {:induction false} OtherByte(G: Geometry, bs: seq<Bytes>, ins: seq<Inode>, ow: Owners, i: int, bn: nat, x: Bytes, p: nat)
    requires FsOk(G, bs, ins, ow, {}) && 0 <= i < |ins| && bn < G.Maxfile() && Slot(G, bs, ins[i], bn) != 0 && |x| == G.bsize && AreBytes(x)
    requires 0 <= p / G.bsize < G.Maxfile()
    ensures var a := Slot(G, bs, ins[i], bn);
            && 0 <= a < |bs|
            && ByteAt(G, bs[a := x], ins[i], p) == if p / G.bsize == bn then x[p % G.bsize] else ByteAt(G, bs, ins[i], p)
  {
    WriteBlock(G, bs, ins, ow, {}, i, bn, x);
    var q := p / G.bsize;
    assert SlotNo(G, |ins|, i, q) && SlotNo(G, |ins|, i, bn);
    if Slot(G, bs, ins[i], q) != 0 { SlotOwned(G, bs, ins, ow, {}, i, q); }
    hide Slot, FsOk;
    var a := Slot(G, bs, ins[i], bn);
    assert Slot(G, bs[a := x], ins[i], q) == Slot(G, bs, ins[i], q);
  }

  /** Writing a block leaves every other file alone. */
  lemma {:induction false} OtherFiles(G: Geometry, bs: seq<Bytes>, ins: seq<Inode>, ow: Owners, i: int, bn: nat, x: Bytes)
    requires FsOk(G, bs, ins, ow, {}) && 0 <= i < |ins| && bn < G.Maxfile() && Slot(G, bs, ins[i], bn) != 0 && |x| == G.bsize && AreBytes(x)
    ensures var a := Slot(G, bs, ins[i], bn); 0 <= a < |bs| && OthersKept(G, bs, ins, bs[a := x], ins, i)
  {
    WriteBlock(G, bs, ins, ow, {}, i, bn, x);
    var a := Slot(G, bs, ins[i], bn);
    hide Slot, BitmapOk;
    forall j | 0 <= j < |ins| && j != i ensures KeepsFile(G, bs, ins[j], bs[a := x], ins[j]) {
      forall k | 0 <= k < G.Maxfile() && Slot(G, bs, ins[j], k) != 0
        ensures Slot(G, bs[a := x], ins[j], k) == Slot(G, bs, ins[j], k) && Slot(G, bs, ins[j], k) != a
      {
        assert SlotNo(G, |ins|, j, k);
      }
    }
  }

  /** The byte at p after m bytes went to position r of block bn. */
  lemma {:induction false} PatchedAt(G: Geometry, b: Bytes, bn: nat, r: nat, src: seq<int>, tot: nat, m: nat, off: nat, p: nat)
    requires G.bsize > 0 && |b| == G.bsize && r + m <= G.bsize && tot + m <= |src| && off + tot == bn * G.bsize + r
    ensures p / G.bsize == bn ==>
      Patched(b, r, src[tot..tot + m])[p % G.bsize] == if off + tot <= p < off + tot + m then src[p - off] else b[p % G.bsize]
    ensures off + tot <= p < off + tot + m ==> p / G.bsize == bn
  {
    DivBounds(p, G.bsize);
    if off + tot <= p < off + tot + m { DivStep(bn, G.bsize, p - bn * G.bsize); }
  }

  lemma {:induction false} PatchedBlock(G: Geometry, bs: seq<Bytes>, ins: seq<Inode>, ow: Owners, i: int, bn: nat, r: nat, s: seq<int>)
    requires FsOk(G, bs, ins, ow, {}) && 0 <= i < |ins| && bn < G.Maxfile() && Slot(G, bs, ins[i], bn) != 0
    requires r + |s| <= G.bsize && AreBytes(s)
    ensures var a := Slot(G, bs, ins[i], bn);
            0 <= a < |bs| && |bs[a]| == G.bsize && |Patched(bs[a], r, s)| == G.bsize && AreBytes(Patched(bs[a], r, s)) && G.bsize > 0
  {
    assert SlotNo(G, |ins|, i, bn);
    SlotOwned(G, bs, ins, ow, {}, i, bn);
    FsFacts(G, bs, ins, ow, {});
    hide FsOk, Slot;
    PatchedBytes(bs[Slot(G, bs, ins[i], bn)], r, s);
  }

  lemma {:induction false} ByteIs(G: Geometry, bs: seq<Bytes>, ip: Inode, p: nat, a: int)
    requires G.bsize > 0 && Slot(G, bs, ip, p / G.bsize) == a && 0 <= a < |bs| && |bs[a]| == G.bsize
    ensures 0 <= p % G.bsize < G.bsize && ByteAt(G, bs, ip, p) == bs[a][p % G.bsize]
  {
    hide Slot;
  }

  lemma {:induction false} WroteByte(G: Geometry, bs: seq<Bytes>, ins: seq<Inode>, ow: Owners, i: int, bn: nat, r: nat, off: nat, src: seq<int>,
                                     tot: nat, m: nat, p: nat)
    requires FsOk(G, bs, ins, ow, {}) && 0 <= i < |ins| && bn < G.Maxfile() && Slot(G, bs, ins[i], bn) != 0
    requires r + m <= G.bsize && tot + m <= |src| && off + tot == bn * G.bsize + r && AreBytes(src) && 0 <= p < G.Maxfile() * G.bsize
    ensures var a := Slot(G, bs, ins[i], bn);
            && 0 <= a < |bs| && |bs[a]| == G.bsize && G.bsize > 0
            && ByteAt(G, bs[a := Patched(bs[a], r, src[tot..tot + m])], ins[i], p) ==
               if off + tot <= p < off + tot + m then src[p - off] else ByteAt(G, bs, ins[i], p)
  {
    hide FsOk, Slot, Patched, ByteAt;
    var a := Slot(G, bs, ins[i], bn);
    PatchedBlock(G, bs, ins, ow, i, bn, r, src[tot..tot + m]);
    SlotBelow(G, p, G.Maxfile() * G.bsize);
    OtherByte(G, bs, ins, ow, i, bn, Patched(bs[a], r, src[tot..tot + m]), p);
    PatchedAt(G, bs[a], bn, r, src, tot, m, off, p);
    if p / G.bsize == bn { ByteIs(G, bs, ins[i], p, a); }
  }

  /** One block of writei(): m more bytes are in the file. */
  lemma {:induction false} WroteStep(G: Geometry, bs: seq<Bytes>, ins: seq<Inode>, ow: Owners, i: int, bn: nat, r: nat, c: seq<int>, off: nat, src: seq<int>,
                                     tot: nat, m: nat)
    requires FsOk(G, bs, ins, ow, {}) && 0 <= i < |ins| && bn < G.Maxfile() && Slot(G, bs, ins[i], bn) != 0
    requires r + m <= G.bsize && tot + m <= |src| && off + tot == bn * G.bsize + r && AreBytes(src) && off <= |c|
    requires G.bsize > 0 && Wrote(G, bs, ins[i], c, off, src, tot) && Max(|c|, off + tot + m) <= G.Maxfile() * G.bsize
    ensures var a := Slot(G, bs, ins[i], bn);
            && 0 <= a < |bs| && |bs[a]| == G.bsize && Wrote(G, bs[a := Patched(bs[a], r, src[tot..tot + m])], ins[i], c, off, src, tot + m)
  {
    hide FsOk, Slot, Patched, ByteAt;
    PatchedBlock(G, bs, ins, ow, i, bn, r, []);
    var a := Slot(G, bs, ins[i], bn);
    var bs' := bs[a := Patched(bs[a], r, src[tot..tot + m])];
    forall p | 0 <= p < Max(|c|, off + (tot + m))
      ensures ByteAt(G, bs', ins[i], p) == if off <= p < off + (tot + m) then src[p - off] else c[p]
    {
      WroteByte(G, bs, ins, ow, i, bn, r, off, src, tot, m, p);
    }
  }

  lemma {:induction false} CoveredMore(G: Geometry, bs: seq<Bytes>, ip: Inode, bn: nat, n: int, n': int)
    requires G.bsize > 0 && Covered(G, bs, ip, n) && Slot(G, bs, ip, bn) != 0 && bn * G.bsize <= n && n' <= bn * G.bsize + G.bsize
    requires n' <= G.Maxfile() * G.bsize
    ensures Covered(G, bs, ip, Max(n, n'))
  {
    hide Slot;
    forall k | 0 <= k && k * G.bsize < Max(n, n') ensures Slot(G, bs, ip, k) != 0 {
      MulStrict(k, bn, G.bsize);
      MulStrict(bn, k, G.bsize);
    }
  }

  lemma {:induction false} CoveredFrame(G: Geometry, bs: seq<Bytes>, ip: Inode, bs': seq<Bytes>, ip': Inode, n: int)
    requires G.bsize > 0 && Covered(G, bs, ip, n) && forall k :: 0 <= k < G.Maxfile() ==> Slot(G, bs', ip', k) == Slot(G, bs, ip, k)
    ensures Covered(G, bs', ip', n)
  {
    hide Slot;
    forall k | 0 <= k && k * G.bsize < n ensures Slot(G, bs', ip', k) != 0 {
      if k >= G.Maxfile() { MulMono(G.Maxfile(), k, G.bsize); }
    }
  }

  /** One iteration of writei() after bmap(). */
  lemma {:induction false} ProgressWritten(G: Geometry, bs0: seq<Bytes>, ins0: seq<Inode>, bs: seq<Bytes>, ins: seq<Inode>, ow: Owners,
                                           i: int, bn: nat, r: nat, off: nat, src: seq<int>, tot: nat, m: nat)
    requires Progress(G, bs0, ins0, bs, ins, i, off, src, tot) && FsOk(G, bs, ins, ow, {}) && |ins| == |ins0|
    requires bn < G.Maxfile() && Slot(G, bs, ins[i], bn) != 0 && r + m <= G.bsize && tot + m <= |src| && off + tot == bn * G.bsize + r && AreBytes(src)
    requires off + tot + m <= G.Maxfile() * G.bsize
    ensures var a := Slot(G, bs, ins[i], bn);
            && 0 <= a < |bs| && |bs[a]| == G.bsize
            && var bs' := bs[a := Patched(bs[a], r, src[tot..tot + m])];
            && Progress(G, bs0, ins0, bs', ins, i, off, src, tot + m) && FsOk(G, bs', ins, ow, {}) && BlocksOk(G, bs') && G.Ok() && BlocksOk(G, bs)
            && FreeBlocks(G, bs') == FreeBlocks(G, bs)
            && (forall l :: 0 <= l <= G.Maxfile() ==> Slot(G, bs', ins[i], l) == Slot(G, bs, ins[i], l))
  {
    hide FsOk, Slot, Patched, Wrote, Covered, OthersKept, Contents, AreBytes, FreeBlocks;
    var c := Contents(G, bs0, ins0[i]);
    var a := Slot(G, bs, ins[i], bn);
    PartBytes(src, tot, m);
    PatchedBlock(G, bs, ins, ow, i, bn, r, src[tot..tot + m]);
    var x := Patched(bs[a], r, src[tot..tot + m]);
    var bs' := bs[a := x];
    var n := Max(ins0[i].size, off + tot);
    CoveredEnd(G, bs, ins[i], n);
    WroteStep(G, bs, ins, ow, i, bn, r, c, off, src, tot, m);
    OtherFiles(G, bs, ins, ow, i, bn, x);
    OthersTrans(G, bs0, ins0, bs, ins, bs', ins, i);
    WriteBlock(G, bs, ins, ow, {}, i, bn, x);
    forall l | 0 <= l <= G.Maxfile() ensures Slot(G, bs', ins[i], l) == Slot(G, bs, ins[i], l) {
      assert SlotNo(G, |ins|, i, l);
    }
    CoveredMore(G, bs, ins[i], bn, n, off + (tot + m));
    CoveredFrame(G, bs, ins[i], bs', ins[i], Max(ins0[i].size, off + (tot + m)));
    FsFacts(G, bs, ins, ow, {});
    FsFacts(G, bs', ins, ow, {});
    SameFree(G, bs, bs', ins, ins, ow);
  }

  lemma {:induction false} SameFree(G: Geometry, bs: seq<Bytes>, bs': seq<Bytes>, ins: seq<Inode>, ins': seq<Inode>, ow: Owners)
    requires FsOk(G, bs, ins, ow, {}) && FsOk(G, bs', ins', ow, {})
    ensures FreeBlocks(G, bs') == FreeBlocks(G, bs)
  {
    FreeIs(G, bs, ins, ow, {});
    FreeIs(G, bs', ins', ow, {});
    hide FreeBlocks, FsOk;
  }

  lemma {:induction false} PartBytes(s: seq<int>, i: nat, m: nat)
    requires AreBytes(s) && i + m <= |s|
    ensures AreBytes(s[i..i + m])
  {
  }

  /** At the end of writei() the file has the bytes of src at off. */
  lemma {:induction false} ProgressEnd(G: Geometry, bs0: seq<Bytes>, ins0: seq<Inode>, bs: seq<Bytes>, ins: seq<Inode>, i: int, off: nat, src: seq<int>)
    requires Progress(G, bs0, ins0, bs, ins, i, off, src, |src|)
    ensures var ip := ins[i].(size := Max(ins0[i].size, off + |src|));
            HoleFree(G, bs, ip) && Contents(G, bs, ip) == Spliced(Contents(G, bs0, ins0[i]), off, src)
  {
    var n := Max(ins0[i].size, off + |src|);
    var ip := ins[i].(size := n);
    var c := Contents(G, bs0, ins0[i]);
    forall k: nat ensures Slot(G, bs, ip, k) == Slot(G, bs, ins[i], k) {
    }
    hide Slot, OthersKept;
    assert forall p :: 0 <= p < n ==> ByteAt(G, bs, ip, p) == ByteAt(G, bs, ins[i], p);
    hide ByteAt;
    var s := Spliced(c, off, src);
    assert |s| == n;
    forall p | 0 <= p < n ensures Contents(G, bs, ip)[p] == s[p] {
    }
  }

  lemma {:induction false} CoveredEnd(G: Geometry, bs: seq<Bytes>, ip: Inode, n: int)
    requires Covered(G, bs, ip, n)
    ensures n <= G.Maxfile() * G.bsize
  {
  }

  // ---------------------------------------------------------------- blocks

  /** Empty slots from lo to hi. */
  ghost function Empty(G: Geometry, bs: seq<Bytes>, ip: Inode, lo: nat, hi: nat): (n: nat)
    ensures lo <= hi ==> n <= hi - lo
    decreases hi - lo
  {
    if lo >= hi then 0 else (if Slot(G, bs, ip, lo) == 0 then 1 else 0) + Empty(G, bs, ip, lo + 1, hi)
  }

  /** Blocks that writing to slots lo to hi allocates: one for each empty slot, and the indirect block. */
  ghost function Needed(G: Geometry, bs: seq<Bytes>, ip: Inode, lo: nat, hi: nat): nat {
    Empty(G, bs, ip, lo, hi) + if lo < hi && hi > G.ndirect && Slot(G, bs, ip, G.Maxfile()) == 0 then 1 else 0
  }

  lemma {:induction false} EmptySame(G: Geometry, bs: seq<Bytes>, ip: Inode, bs': seq<Bytes>, ip': Inode, lo: nat, hi: nat)
    requires forall l :: lo <= l < hi ==> Slot(G, bs', ip', l) == Slot(G, bs, ip, l)
    ensures Empty(G, bs', ip', lo, hi) == Empty(G, bs, ip, lo, hi)
    decreases hi - lo
  {
    hide Slot;
    if lo < hi { EmptySame(G, bs, ip, bs', ip', lo + 1, hi); }
  }

  /** bmap() of slot lo allocates what that slot needs. */
  lemma {:induction false} NeededStep(G: Geometry, bs: seq<Bytes>, ip: Inode, bs': seq<Bytes>, ip': Inode, lo: nat, hi: nat)
    requires Filled(G, bs, ip, bs', ip', lo) && lo < hi <= G.Maxfile()
    ensures Needed(G, bs', ip', lo + 1, hi) + Needs(G, bs, ip, lo) == Needed(G, bs, ip, lo, hi)
    ensures Empty(G, bs', ip', lo + 1, hi) + (if Slot(G, bs, ip, lo) == 0 then 1 else 0) == Empty(G, bs, ip, lo, hi)
  {
    hide Slot;
    EmptySame(G, bs, ip, bs', ip', lo + 1, hi);
  }

  lemma {:induction false} UnionCard(a: set<int>, b: set<int>)
    ensures |a + b| <= |a| + |b|
  {
    assert a + b == a + (b - a);
  }
}
