/** The buffer cache of bio.c over the disk of memide.c: NBUF buffers on a ring
    through prev/next, most recently used first.  Buffer number nbuf is the head
    of the ring.  A block is the sequence of its words. */
module BufferCache {
  import opened Counting

  type Block = seq<int>

  /** struct buf.  Only device 1 is ever used; a buffer that holds nothing yet has device 0. */
  datatype Buf = Buf(dev: int, blockno: int, valid: bool, dirty: bool, refcnt: int, locked: bool,
                     prev: int, next: int, data: Block)

  // ---------------------------------------------------------------- circular lists

  /** e walks once round a circle: it ends where it starts and repeats nothing else.  nx goes along e and pv back. */
  ghost predicate Circular(nx: seq<int>, pv: seq<int>, e: seq<int>) {
    && |nx| == |pv| && |e| > 1 && e[0] == e[|e| - 1]
    && (forall k :: 0 <= k < |e| ==> 0 <= e[k] < |nx|)
    && (forall j, k :: 0 < j < k < |e| ==> e[j] != e[k])
    && (forall k :: 0 <= k < |e| - 1 ==> nx[e[k]] == e[k + 1])
    && (forall k :: 0 < k < |e| ==> pv[e[k]] == e[k - 1])
  }

  /** c is d without position n. */
  ghost predicate Dropped(d: seq<int>, c: seq<int>, n: nat) {
    && n < |d| && |c| == |d| - 1
    && (forall k :: 0 <= k < n ==> c[k] == d[k])
    && (forall k :: n <= k < |c| ==> c[k] == d[k + 1])
  }

  /** The node at position n, not the head, leaves the circle. */
  lemma {:induction false} CircleLeaves(nx: seq<int>, pv: seq<int>, d: seq<int>, c: seq<int>, n: nat)
    requires Circular(nx, pv, d) && 0 < n < |d| - 1 && Dropped(d, c, n)
    ensures nx[d[n]] == d[n + 1] && pv[d[n]] == d[n - 1]
    ensures Circular(nx[d[n - 1] := d[n + 1]], pv[d[n + 1] := d[n - 1]], c)
  {
    var nx', pv' := nx[d[n - 1] := d[n + 1]], pv[d[n + 1] := d[n - 1]];
    forall k | 0 <= k < |c| - 1 ensures nx'[c[k]] == c[k + 1] {
      if k < n - 1 { assert nx[d[k]] == d[k + 1]; } else if k >= n { assert nx[d[k + 1]] == d[k + 2]; }
    }
    forall k | 0 < k < |c| ensures pv'[c[k]] == c[k - 1] {
      if k < n { assert pv[d[k]] == d[k - 1]; } else if k > n { assert pv[d[k + 1]] == d[k]; }
    }
  }

  /** x joins the circle right behind its head. */
  lemma {:induction false} CircleJoins(nx: seq<int>, pv: seq<int>, c: seq<int>, d: seq<int>, x: int)
    requires Circular(nx, pv, c) && 0 <= x < |nx| && x !in c && |d| > 2 && Dropped(d, c, 1) && d[1] == x
    ensures nx[c[0]] == c[1]
    ensures Circular(nx[x := c[1]][c[0] := x], pv[x := c[0]][c[1] := x], d)
  {
    var nx', pv' := nx[x := c[1]][c[0] := x], pv[x := c[0]][c[1] := x];
    assert forall k :: 1 < k < |d| ==> d[k] == c[k - 1];
    forall k | 0 <= k < |d| - 1 ensures nx'[d[k]] == d[k + 1] {
      if k > 1 { assert nx[c[k - 1]] == c[k]; }
    }
    forall k | 0 < k < |d| ensures pv'[d[k]] == d[k - 1] {
      if k > 2 { assert pv[c[k - 1]] == c[k - 2]; }
    }
  }

  // ---------------------------------------------------------------- invariant

  ghost function Nx(bs: seq<Buf>): (r: seq<int>)
    ensures |r| == |bs|
  {
    seq(|bs|, k requires 0 <= k < |bs| => bs[k].next)
  }

  ghost function Pv(bs: seq<Buf>): (r: seq<int>)
    ensures |r| == |bs|
  {
    seq(|bs|, k requires 0 <= k < |bs| => bs[k].prev)
  }

  ghost function Walk(h: int, ring: seq<int>): seq<int> { [h] + ring + [h] }

  /** The ring passes through the head and every buffer exactly once. */
  ghost predicate RingOk(bs: seq<Buf>, ring: seq<int>) {
    && |bs| > 1 && Circular(Nx(bs), Pv(bs), Walk(|bs| - 1, ring))
    && forall x :: x in ring <==> 0 <= x < |bs| - 1
  }

  /** A buffer that nobody holds and that is not dirty has the contents of its block on disk. */
  ghost predicate BufOk(b: Buf, disk: seq<Block>) {
    && b.refcnt >= 0 && (b.locked ==> b.refcnt > 0) && (b.dirty ==> b.valid)
    && (b.valid || b.refcnt > 0 ==> b.dev == 1)
    && (b.dev == 1 ==> 0 <= b.blockno < |disk|)
    && (b.valid && !b.dirty && !b.locked ==> b.data == disk[b.blockno])
  }

  ghost predicate BufsOk(bs: seq<Buf>, disk: seq<Block>) {
    forall k :: 0 <= k < |bs| - 1 ==> BufOk(bs[k], disk)
  }

  /** No block has two buffers. */
  ghost predicate Unique(bs: seq<Buf>) {
    forall j, k :: 0 <= j < k < |bs| - 1 && bs[j].dev == 1 && bs[k].dev == 1 ==> bs[j].blockno != bs[k].blockno
  }

  ghost predicate CacheInv(bs: seq<Buf>, ring: seq<int>, disk: seq<Block>) {
    RingOk(bs, ring) && BufsOk(bs, disk) && Unique(bs)
  }

  ghost predicate Holds(b: Buf, blockno: int) { b.dev == 1 && b.blockno == blockno }

  /** The buffer of a block among the first n, or -1. */
  ghost function Find(bs: seq<Buf>, blockno: int, n: nat): (r: int)
    requires n <= |bs|
    ensures r == -1 || (0 <= r < n && Holds(bs[r], blockno))
    ensures r == -1 ==> forall k :: 0 <= k < n ==> !Holds(bs[k], blockno)
  {
    if n == 0 then -1 else if Holds(bs[n - 1], blockno) then n - 1 else Find(bs, blockno, n - 1)
  }

  ghost function Cached(bs: seq<Buf>, blockno: int): int
    requires |bs| > 0
  {
    Find(bs, blockno, |bs| - 1)
  }

  lemma {:induction false} FoundAt(bs: seq<Buf>, blockno: int, k: int)
    requires Unique(bs) && 0 <= k < |bs| - 1 && Holds(bs[k], blockno)
    ensures Cached(bs, blockno) == k
  {
  }

  /** What the file system should see in a block: the dirty buffer if there is one, else the disk. */
  ghost function Logical(bs: seq<Buf>, disk: seq<Block>, blockno: int): Block
    requires |bs| > 0 && 0 <= blockno < |disk|
  {
    var k := Cached(bs, blockno);
    if k != -1 && bs[k].dirty then bs[k].data else disk[blockno]
  }

  /** The whole disk as the file system should see it. */
  ghost function View(bs: seq<Buf>, disk: seq<Block>): (v: seq<Block>)
    requires |bs| > 0
    ensures |v| == |disk|
  {
    seq(|disk|, b requires 0 <= b < |disk| => Logical(bs, disk, b))
  }

  /** The blocks that have a dirty buffer. */
  ghost function DirtySet(bs: seq<Buf>): set<int>
    requires |bs| > 0
  {
    set k | 0 <= k < |bs| - 1 && bs[k].dirty :: bs[k].blockno
  }

  /** The blocks whose buffer somebody holds. */
  ghost function LockedSet(bs: seq<Buf>): set<int>
    requires |bs| > 0
  {
    set k | 0 <= k < |bs| - 1 && bs[k].locked :: bs[k].blockno
  }

  /** The blocks whose buffer somebody holds or waits for. */
  ghost function RefSet(bs: seq<Buf>): set<int>
    requires |bs| > 0
  {
    set k | 0 <= k < |bs| - 1 && bs[k].refcnt > 0 :: bs[k].blockno
  }

  ghost predicate SameBlock(b: Buf, b': Buf) { b'.dev == b.dev && b'.blockno == b.blockno }

  lemma {:induction false} FindSame(bs: seq<Buf>, bs': seq<Buf>, blockno: int, n: nat)
    requires |bs| == |bs'| && n <= |bs| && forall k :: 0 <= k < n ==> SameBlock(bs[k], bs'[k])
    ensures Find(bs', blockno, n) == Find(bs, blockno, n)
  {
    if n > 0 { FindSame(bs, bs', blockno, n - 1); }
  }

  /** Buffers that keep their blocks, their dirtiness and, where dirty, their data keep the view. */
  lemma {:induction false} ViewSame(bs: seq<Buf>, bs': seq<Buf>, disk: seq<Block>)
    requires |bs| == |bs'| > 0
    requires forall k :: 0 <= k < |bs| - 1 ==>
      SameBlock(bs[k], bs'[k]) && bs'[k].dirty == bs[k].dirty && (bs[k].dirty ==> bs'[k].data == bs[k].data)
    ensures View(bs', disk) == View(bs, disk) && DirtySet(bs') == DirtySet(bs)
  {
    forall b | 0 <= b < |disk| ensures Logical(bs', disk, b) == Logical(bs, disk, b) {
      FindSame(bs, bs', b, |bs| - 1);
    }
  }

  /** Giving a clean buffer to a block that had none keeps the view. */
  lemma {:induction false} ViewRecycled(bs: seq<Buf>, disk: seq<Block>, k: int, b: Buf)
    requires Unique(bs) && 0 <= k < |bs| - 1 && !bs[k].dirty && !b.dirty && b.dev == 1
    requires Cached(bs, b.blockno) == -1
    ensures View(bs[k := b], disk) == View(bs, disk) && DirtySet(bs[k := b]) == DirtySet(bs)
  {
    var bs' := bs[k := b];
    UniqueReplaced(bs, k, b);
    forall c | 0 <= c < |disk| ensures Logical(bs', disk, c) == Logical(bs, disk, c) {
      var i, j := Cached(bs, c), Cached(bs', c);
      if i != -1 && i != k { FoundAt(bs', c, i); }
      if j != -1 && j != k { FoundAt(bs, c, j); }
    }
    assert forall j :: 0 <= j < |bs| - 1 ==> bs'[j].dirty == bs[j].dirty && (bs[j].dirty ==> bs'[j].blockno == bs[j].blockno);
  }

  /** One buffer k of block c turns dirty or clean or changes its data, and the disk may change in c. */
  lemma {:induction false} ViewAt(bs: seq<Buf>, bs': seq<Buf>, disk: seq<Block>, disk': seq<Block>, k: int)
    requires Unique(bs) && 0 <= k < |bs| - 1 && bs[k].dev == 1 && 0 <= bs[k].blockno < |disk| == |disk'|
    requires forall j :: 0 <= j < |bs| - 1 && bs[j].dirty ==> bs[j].dev == 1
    requires |bs'| == |bs| && bs' == bs[k := bs'[k]] && SameBlock(bs[k], bs'[k])
    requires disk' == disk[bs[k].blockno := disk'[bs[k].blockno]]
    ensures View(bs', disk') == View(bs, disk)[bs[k].blockno := if bs'[k].dirty then bs'[k].data else disk'[bs[k].blockno]]
    ensures DirtySet(bs') == if bs'[k].dirty then DirtySet(bs) + {bs[k].blockno} else DirtySet(bs) - {bs[k].blockno}
  {
    var c := bs[k].blockno;
    forall b | 0 <= b < |disk| && b != c ensures Logical(bs', disk', b) == Logical(bs, disk, b) {
      FindSame(bs, bs', b, |bs| - 1);
    }
    FoundAt(bs, c, k);
    FindSame(bs, bs', c, |bs| - 1);
    assert Logical(bs', disk', c) == if bs'[k].dirty then bs'[k].data else disk'[c];
    DirtyAt(bs, bs', k);
  }

  lemma {:induction false} DirtyAt(bs: seq<Buf>, bs': seq<Buf>, k: int)
    requires Unique(bs) && 0 <= k < |bs| - 1 && bs[k].dev == 1
    requires |bs'| == |bs| && bs' == bs[k := bs'[k]] && SameBlock(bs[k], bs'[k])
    requires forall j :: 0 <= j < |bs| - 1 && bs[j].dirty ==> bs[j].dev == 1
    ensures DirtySet(bs') == if bs'[k].dirty then DirtySet(bs) + {bs[k].blockno} else DirtySet(bs) - {bs[k].blockno}
  {
    assert forall j :: 0 <= j < |bs| - 1 && j != k ==> bs'[j] == bs[j];
  }

  /** A buffer bget() may not recycle. */
  ghost predicate Busy(b: Buf) { b.refcnt != 0 || b.dirty }

  ghost function FreeSet(bs: seq<Buf>): set<int>
    requires |bs| > 0
  {
    set k | 0 <= k < |bs| - 1 && !Busy(bs[k])
  }

  /** Every buffer behind b on the ring, which is less recently used, is busy. */
  ghost predicate LeastRecent(bs: seq<Buf>, ring: seq<int>, b: int) {
    exists n :: 0 <= n < |ring| && ring[n] == b && forall k :: n < k < |ring| ==> 0 <= ring[k] < |bs| && Busy(bs[ring[k]])
  }

  /** b is moved to the front of the ring and the others keep their order. */
  ghost predicate MovedToFront(ring: seq<int>, ring': seq<int>, b: int) {
    exists n :: 0 <= n < |ring| && ring[n] == b && ring' == [b] + ring[..n] + ring[n + 1..]
  }

  function Recycled(b: Buf, blockno: int): Buf {
    b.(dev := 1, blockno := blockno, valid := false, dirty := false, refcnt := 1, locked := true)
  }

  /** Replacing buffer k, links aside from neither ring nor invariant. */
  lemma {:induction false} ReplaceInv(bs: seq<Buf>, ring: seq<int>, disk: seq<Block>, k: int, b: Buf)
    requires CacheInv(bs, ring, disk) && 0 <= k < |bs| - 1
    requires b.prev == bs[k].prev && b.next == bs[k].next && BufOk(b, disk)
    requires b.dev == 1 ==> Cached(bs, b.blockno) == k || Cached(bs, b.blockno) == -1
    ensures CacheInv(bs[k := b], ring, disk)
  {
    assert Nx(bs[k := b]) == Nx(bs) && Pv(bs[k := b]) == Pv(bs);
    UniqueReplaced(bs, k, b);
  }

  /** Writing a held dirty buffer to its block leaves every other buffer in agreement with the disk. */
  lemma {:induction false} WriteInv(bs: seq<Buf>, ring: seq<int>, disk: seq<Block>, k: int)
    requires CacheInv(bs, ring, disk) && 0 <= k < |bs| - 1 && bs[k].locked && bs[k].dev == 1
    ensures CacheInv(bs[k := bs[k].(dirty := false, valid := true)], ring, disk[bs[k].blockno := bs[k].data])
  {
    var b := bs[k].(dirty := false, valid := true);
    assert Nx(bs[k := b]) == Nx(bs) && Pv(bs[k := b]) == Pv(bs);
    var bs', disk' := bs[k := b], disk[bs[k].blockno := bs[k].data];
    forall j | 0 <= j < |bs| - 1 ensures BufOk(bs'[j], disk') {
      assert BufOk(bs[j], disk);
    }
  }

  lemma {:induction false} UniqueReplaced(bs: seq<Buf>, k: int, b: Buf)
    requires Unique(bs) && 0 <= k < |bs| - 1
    requires b.dev == 1 ==> Cached(bs, b.blockno) == k || Cached(bs, b.blockno) == -1
    ensures Unique(bs[k := b])
  {
    if b.dev == 1 {
      forall j | 0 <= j < |bs| - 1 && j != k ensures !Holds(bs[j], b.blockno) {
        if Holds(bs[j], b.blockno) { FoundAt(bs, b.blockno, j); }
      }
    }
  }

  lemma {:induction false} UnlockedAt(bs: seq<Buf>, disk: seq<Block>, blockno: int)
    requires Unique(bs) && BufsOk(bs, disk) && |bs| > 0
    ensures blockno in LockedSet(bs) <==> Cached(bs, blockno) != -1 && bs[Cached(bs, blockno)].locked
  {
    forall k | 0 <= k < |bs| - 1 && bs[k].locked && bs[k].blockno == blockno ensures Cached(bs, blockno) == k {
      assert BufOk(bs[k], disk);
      FoundAt(bs, blockno, k);
    }
  }

  lemma {:induction false} LockedSame(bs: seq<Buf>, bs': seq<Buf>)
    requires |bs| == |bs'| > 0
    requires forall k :: 0 <= k < |bs| - 1 ==> bs'[k].locked == bs[k].locked && (bs[k].locked ==> bs'[k].blockno == bs[k].blockno)
    ensures LockedSet(bs') == LockedSet(bs)
  {
  }

  /** Buffer b, unlocked before, is locked for the block now. */
  lemma {:induction false} LockedAt(bs: seq<Buf>, bs': seq<Buf>, disk: seq<Block>, b: int, blockno: int)
    requires BufsOk(bs, disk) && 0 <= b < |bs| - 1 && |bs'| == |bs| && bs' == bs[b := bs'[b]]
    requires !bs[b].locked || bs[b].refcnt == 0
    requires bs'[b].locked && bs'[b].blockno == blockno
    ensures LockedSet(bs') == LockedSet(bs) + {blockno} && !bs[b].locked
  {
    assert BufOk(bs[b], disk);
    assert forall k :: 0 <= k < |bs| - 1 && k != b ==> bs'[k] == bs[k];
  }

  /** Buffer b of the block is unlocked now. */
  lemma {:induction false} LockedNoMore(bs: seq<Buf>, bs': seq<Buf>, disk: seq<Block>, b: int, blockno: int)
    requires BufsOk(bs, disk) && Unique(bs) && 0 <= b < |bs| - 1 && |bs'| == |bs| && Holds(bs[b], blockno)
    requires forall k :: 0 <= k < |bs| - 1 && k != b ==> bs'[k].locked == bs[k].locked && bs'[k].blockno == bs[k].blockno
    requires !bs'[b].locked
    ensures LockedSet(bs') == LockedSet(bs) - {blockno}
  {
    forall k | 0 <= k < |bs| - 1 && k != b && bs[k].locked ensures bs[k].blockno != blockno {
      assert BufOk(bs[k], disk);
      FoundAt(bs, blockno, b);
      if bs[k].blockno == blockno { FoundAt(bs, blockno, k); }
    }
  }

  lemma {:induction false} DirtyCached(bs: seq<Buf>, disk: seq<Block>, blockno: int)
    requires Unique(bs) && BufsOk(bs, disk) && |bs| > 0
    ensures blockno in DirtySet(bs) ==> Cached(bs, blockno) != -1 && bs[Cached(bs, blockno)].dirty
  {
    forall k | 0 <= k < |bs| - 1 && bs[k].dirty && bs[k].blockno == blockno ensures Cached(bs, blockno) == k {
      assert BufOk(bs[k], disk);
      FoundAt(bs, blockno, k);
    }
  }

  /** A block is referenced exactly if its buffer is. */
  lemma {:induction false} RefAt(bs: seq<Buf>, disk: seq<Block>, blockno: int)
    requires Unique(bs) && BufsOk(bs, disk) && |bs| > 0
    ensures blockno in RefSet(bs) <==> Cached(bs, blockno) != -1 && bs[Cached(bs, blockno)].refcnt > 0
  {
    forall k | 0 <= k < |bs| - 1 && bs[k].refcnt > 0 && bs[k].blockno == blockno ensures Cached(bs, blockno) == k {
      assert BufOk(bs[k], disk);
      FoundAt(bs, blockno, k);
    }
  }

  /** Buffer b of the block gets another reference count; the other buffers keep theirs. */
  lemma {:induction false} RefsSet(bs: seq<Buf>, bs': seq<Buf>, disk: seq<Block>, b: int, blockno: int)
    requires BufsOk(bs, disk) && Unique(bs) && 0 <= b < |bs| - 1 && |bs'| == |bs| && Holds(bs[b], blockno)
    requires forall k :: 0 <= k < |bs| - 1 ==> bs'[k].blockno == bs[k].blockno && (k != b ==> bs'[k].refcnt == bs[k].refcnt)
    ensures RefSet(bs') == if bs'[b].refcnt > 0 then RefSet(bs) + {blockno} else RefSet(bs) - {blockno}
  {
    forall k | 0 <= k < |bs| - 1 && k != b && bs[k].refcnt > 0 ensures bs[k].blockno != blockno {
      assert BufOk(bs[k], disk);
      FoundAt(bs, blockno, b);
      if bs[k].blockno == blockno { FoundAt(bs, blockno, k); }
    }
  }

  lemma {:induction false} Referenced(bs: seq<Buf>)
    requires |bs| > 0
    ensures forall k :: 0 <= k < |bs| - 1 && bs[k].refcnt > 0 ==> bs[k].blockno in RefSet(bs)
  {
  }

  lemma {:induction false} RefsSame(bs: seq<Buf>, bs': seq<Buf>)
    requires |bs| == |bs'| > 0
    requires forall k :: 0 <= k < |bs| - 1 ==> bs'[k].refcnt == bs[k].refcnt && bs'[k].blockno == bs[k].blockno
    ensures RefSet(bs') == RefSet(bs)
  {
  }

  /** Where bget() panics, said of blocks: nothing can be recycled, and the block is neither dirty nor referenced. */
  lemma {:induction false} NoBuffer(bs: seq<Buf>, disk: seq<Block>, blockno: int)
    requires Unique(bs) && BufsOk(bs, disk) && |bs| > 0
    ensures Cached(bs, blockno) == -1 && (forall k :: 0 <= k < |bs| - 1 ==> Busy(bs[k]))
            <==> FreeSet(bs) == {} && blockno !in DirtySet(bs) && blockno !in RefSet(bs)
  {
    DirtyCached(bs, disk, blockno);
    RefAt(bs, disk, blockno);
    var k := Cached(bs, blockno);
    if k != -1 {
      assert BufOk(bs[k], disk);
      HeldView(bs, disk, k, blockno);
      assert !Busy(bs[k]) ==> k in FreeSet(bs);
    }
    forall j | 0 <= j < |bs| - 1 && !Busy(bs[j]) ensures j in FreeSet(bs) {}
  }

  /** The dirty buffers among the first n, and their blocks. */
  ghost function DirtyBufs(bs: seq<Buf>, n: nat): set<int>
    requires n <= |bs|
  {
    set k | 0 <= k < n && bs[k].dirty
  }

  ghost function DirtyNos(bs: seq<Buf>, n: nat): set<int>
    requires n <= |bs|
  {
    set k | 0 <= k < n && bs[k].dirty :: bs[k].blockno
  }

  lemma {:induction false} DirtyNext(bs: seq<Buf>, n: nat)
    requires 0 < n < |bs| && Unique(bs) && forall k :: 0 <= k < |bs| - 1 && bs[k].dirty ==> bs[k].dev == 1
    ensures DirtyBufs(bs, n) == if bs[n - 1].dirty then DirtyBufs(bs, n - 1) + {n - 1} else DirtyBufs(bs, n - 1)
    ensures DirtyNos(bs, n) == if bs[n - 1].dirty then DirtyNos(bs, n - 1) + {bs[n - 1].blockno} else DirtyNos(bs, n - 1)
    ensures n - 1 !in DirtyBufs(bs, n - 1) && (bs[n - 1].dirty ==> bs[n - 1].blockno !in DirtyNos(bs, n - 1))
  {
  }

  /** The dirty blocks have one buffer each. */
  lemma {:induction false} DirtyBuffers(bs: seq<Buf>, n: nat)
    requires Unique(bs) && n < |bs| && forall k :: 0 <= k < |bs| - 1 && bs[k].dirty ==> bs[k].dev == 1
    ensures |DirtyBufs(bs, n)| == |DirtyNos(bs, n)|
  {
    if n > 0 {
      hide DirtyBufs, DirtyNos;
      DirtyNext(bs, n);
      DirtyBuffers(bs, n - 1);
    }
  }

  /** With no buffer referenced, those that cannot be recycled are the dirty ones. */
  lemma {:induction false} FreeCount(bs: seq<Buf>, disk: seq<Block>)
    requires Unique(bs) && BufsOk(bs, disk) && |bs| > 0 && RefSet(bs) == {}
    ensures |FreeSet(bs)| == |bs| - 1 - |DirtySet(bs)|
  {
    AllDirtyRoot(bs, disk);
    DirtyBuffers(bs, |bs| - 1);
    Referenced(bs);
    forall k | 0 <= k < |bs| - 1 ensures bs[k].refcnt == 0 { assert BufOk(bs[k], disk); }
    FreeOrDirty(bs);
  }

  lemma {:induction false} FreeOrDirty(bs: seq<Buf>)
    requires |bs| > 0 && forall k :: 0 <= k < |bs| - 1 ==> bs[k].refcnt == 0
    ensures |FreeSet(bs)| + |DirtyBufs(bs, |bs| - 1)| == |bs| - 1
  {
    assert UpTo(|bs| - 1) == FreeSet(bs) + DirtyBufs(bs, |bs| - 1);
  }

  lemma {:induction false} HeldBusy(bs: seq<Buf>, disk: seq<Block>, b: int)
    requires BufsOk(bs, disk) && 0 <= b < |bs| - 1 && bs[b].locked
    ensures bs[b].refcnt > 0
  {
    assert BufOk(bs[b], disk);
  }

  /** What bread() leaves in the buffer bget() chose. */
  ghost function Got(bs: seq<Buf>, disk: seq<Block>, b: int, blockno: int): Buf
    requires 0 <= b < |bs| && 0 <= blockno < |disk|
  {
    var g := if Cached(bs, blockno) == b then bs[b].(refcnt := bs[b].refcnt + 1, locked := true) else Recycled(bs[b], blockno);
    if g.valid then g else g.(data := disk[blockno], valid := true)
  }

  lemma {:induction false} GotView(bs: seq<Buf>, disk: seq<Block>, b: int, blockno: int)
    requires Unique(bs) && BufsOk(bs, disk) && 0 <= b < |bs| - 1 && 0 <= blockno < |disk|
    requires Cached(bs, blockno) == b || (Cached(bs, blockno) == -1 && !Busy(bs[b]))
    requires blockno !in LockedSet(bs)
    ensures View(bs[b := Got(bs, disk, b, blockno)], disk) == View(bs, disk)
    ensures DirtySet(bs[b := Got(bs, disk, b, blockno)]) == DirtySet(bs)
  {
    assert BufOk(bs[b], disk);
    var bs' := bs[b := Got(bs, disk, b, blockno)];
    if Cached(bs, blockno) == b { ViewSame(bs, bs', disk); } else { ViewRecycled(bs, disk, b, bs'[b]); }
  }

  lemma {:induction false} GotSets(bs: seq<Buf>, disk: seq<Block>, b: int, blockno: int)
    requires Unique(bs) && BufsOk(bs, disk) && 0 <= b < |bs| - 1 && 0 <= blockno < |disk|
    requires Cached(bs, blockno) == b || (Cached(bs, blockno) == -1 && !Busy(bs[b]))
    requires blockno !in LockedSet(bs)
    ensures LockedSet(bs[b := Got(bs, disk, b, blockno)]) == LockedSet(bs) + {blockno} && !bs[b].locked
    ensures FreeSet(bs[b := Got(bs, disk, b, blockno)]) == FreeSet(bs) - {b}
  {
    assert BufOk(bs[b], disk);
    UnlockedAt(bs, disk, blockno);
    var bs' := bs[b := Got(bs, disk, b, blockno)];
    LockedAt(bs, bs', disk, b, blockno);
    assert forall k :: 0 <= k < |bs| - 1 && k != b ==> bs'[k] == bs[k];
  }

  lemma {:induction false} GotRefs(bs: seq<Buf>, disk: seq<Block>, b: int, blockno: int)
    requires Unique(bs) && BufsOk(bs, disk) && 0 <= b < |bs| - 1 && 0 <= blockno < |disk|
    requires Cached(bs, blockno) == b || (Cached(bs, blockno) == -1 && !Busy(bs[b]))
    ensures RefSet(bs[b := Got(bs, disk, b, blockno)]) == RefSet(bs) + {blockno}
    ensures Got(bs, disk, b, blockno).refcnt == 1 <==> blockno !in RefSet(bs)
  {
    assert BufOk(bs[b], disk);
    RefAt(bs, disk, blockno);
    var g := Got(bs, disk, b, blockno);
    assert g.blockno == blockno && g.refcnt == bs[b].refcnt + 1;
    hide Got, BufsOk, Unique;
    RefsGrow(bs, bs[b := g], b, blockno);
  }

  lemma {:induction false} RefsGrow(bs: seq<Buf>, bs': seq<Buf>, b: int, blockno: int)
    requires 0 <= b < |bs| - 1 && |bs'| == |bs| && bs' == bs[b := bs'[b]]
    requires bs'[b].refcnt > 0 && bs'[b].blockno == blockno && (bs[b].refcnt == 0 || bs[b].blockno == blockno)
    requires bs[b].refcnt >= 0
    ensures RefSet(bs') == RefSet(bs) + {blockno}
  {
    assert forall k :: 0 <= k < |bs| - 1 && k != b ==> bs'[k] == bs[k];
  }

  lemma {:induction false} FreeBlock(bs: seq<Buf>, disk: seq<Block>, b: int, blockno: int)
    requires Unique(bs) && BufsOk(bs, disk) && 0 <= b < |bs| - 1
    requires Cached(bs, blockno) == b || (Cached(bs, blockno) == -1 && !Busy(bs[b]))
    ensures b in FreeSet(bs) <==> blockno !in DirtySet(bs) && blockno !in RefSet(bs)
  {
    assert BufOk(bs[b], disk);
    RefAt(bs, disk, blockno);
    DirtyCached(bs, disk, blockno);
    if Cached(bs, blockno) == b { HeldView(bs, disk, b, blockno); }
  }

  lemma {:induction false} GotData(bs: seq<Buf>, disk: seq<Block>, b: int, blockno: int)
    requires Unique(bs) && BufsOk(bs, disk) && 0 <= b < |bs| - 1 && 0 <= blockno < |disk|
    requires Cached(bs, blockno) == b || (Cached(bs, blockno) == -1 && !Busy(bs[b]))
    requires blockno !in LockedSet(bs)
    ensures var g := Got(bs, disk, b, blockno);
            && Holds(g, blockno) && g.locked && g.valid && g.data == View(bs, disk)[blockno]
            && g.dirty == (blockno in DirtySet(bs)) && (!g.dirty ==> g.data == disk[blockno])
  {
    assert BufOk(bs[b], disk);
    UnlockedAt(bs, disk, blockno);
    DirtyCached(bs, disk, blockno);
    if Cached(bs, blockno) == b { HeldView(bs, disk, b, blockno); }
  }

  lemma {:induction false} GotRoot(bs: seq<Buf>, disk: seq<Block>, b: int, blockno: int)
    requires 0 <= b < |bs| - 1 && BufOk(bs[b], disk) && (Cached(bs, blockno) == b || Cached(bs, blockno) == -1)
    ensures Cached(bs, blockno) == b ==> Holds(bs[b], blockno) && (bs[b].dirty ==> bs[b].valid)
  {
  }

  lemma {:induction false} GotIs(bs: seq<Buf>, bs': seq<Buf>, disk: seq<Block>, b: int, blockno: int)
    requires 0 <= b < |bs| && 0 <= blockno < |disk|
    requires var g := if Cached(bs, blockno) == b then bs[b].(refcnt := bs[b].refcnt + 1, locked := true) else Recycled(bs[b], blockno);
             bs' == bs[b := if g.valid then g else g.(data := disk[blockno], valid := true)]
    ensures bs' == bs[b := Got(bs, disk, b, blockno)]
  {
  }

  lemma {:induction false} BeforeBread(bs: seq<Buf>, ring: seq<int>, disk: seq<Block>, blockno: int)
    requires CacheInv(bs, ring, disk)
    ensures |bs| > 0 && -1 <= Cached(bs, blockno) < |bs| - 1
    ensures blockno in DirtySet(bs) ==> Cached(bs, blockno) != -1 && bs[Cached(bs, blockno)].dirty
    ensures blockno in LockedSet(bs) <==> Cached(bs, blockno) != -1 && bs[Cached(bs, blockno)].locked
    ensures Cached(bs, blockno) == -1 && (forall k :: 0 <= k < |bs| - 1 ==> Busy(bs[k]))
            <==> FreeSet(bs) == {} && blockno !in DirtySet(bs) && blockno !in RefSet(bs)
  {
    DirtyCached(bs, disk, blockno);
    UnlockedAt(bs, disk, blockno);
    NoBuffer(bs, disk, blockno);
  }

  lemma {:induction false} GotParts(bs: seq<Buf>, ring: seq<int>, disk: seq<Block>, b: int, blockno: int)
    requires CacheInv(bs, ring, disk) && 0 <= b < |bs| - 1 && 0 <= blockno < |disk|
    requires Cached(bs, blockno) == b || (Cached(bs, blockno) == -1 && !Busy(bs[b]))
    requires blockno !in LockedSet(bs)
    ensures var g := Got(bs, disk, b, blockno);
            && Holds(g, blockno) && g.locked && g.valid && g.data == View(bs, disk)[blockno]
            && g.dirty == (blockno in DirtySet(bs)) && (!g.dirty ==> g.data == disk[blockno])
    ensures View(bs[b := Got(bs, disk, b, blockno)], disk) == View(bs, disk)
    ensures DirtySet(bs[b := Got(bs, disk, b, blockno)]) == DirtySet(bs)
    ensures LockedSet(bs[b := Got(bs, disk, b, blockno)]) == LockedSet(bs) + {blockno} && !bs[b].locked
    ensures FreeSet(bs[b := Got(bs, disk, b, blockno)]) == FreeSet(bs) - {b}
    ensures b in FreeSet(bs) <==> blockno !in DirtySet(bs) && blockno !in RefSet(bs)
    ensures RefSet(bs[b := Got(bs, disk, b, blockno)]) == RefSet(bs) + {blockno}
    ensures Got(bs, disk, b, blockno).refcnt == 1 <==> blockno !in RefSet(bs)
    ensures BufOk(bs[b], disk)
  {
    FreeBlock(bs, disk, b, blockno);
    GotRefs(bs, disk, b, blockno);
    GotView(bs, disk, b, blockno);
    GotSets(bs, disk, b, blockno);
    GotData(bs, disk, b, blockno);
  }

  /** Somebody else holds the buffer of the block: bget() adds a reference and nothing else. */
  lemma {:induction false} WaitParts(bs: seq<Buf>, ring: seq<int>, disk: seq<Block>, b: int, blockno: int)
    requires CacheInv(bs, ring, disk) && 0 <= b < |bs| - 1 && Cached(bs, blockno) == b && bs[b].locked
    ensures var bs' := bs[b := bs[b].(refcnt := bs[b].refcnt + 1, locked := true)];
            && View(bs', disk) == View(bs, disk) && DirtySet(bs') == DirtySet(bs) && LockedSet(bs') == LockedSet(bs)
            && FreeSet(bs') == FreeSet(bs) - {b} && b !in FreeSet(bs) && RefSet(bs') == RefSet(bs) + {blockno}
    ensures blockno in LockedSet(bs) && blockno in RefSet(bs) && bs[b].refcnt > 0 && Holds(bs[b], blockno)
  {
    var bs' := bs[b := bs[b].(refcnt := bs[b].refcnt + 1, locked := true)];
    assert BufOk(bs[b], disk);
    ViewSame(bs, bs', disk);
    LockedSame(bs, bs');
    RefsGrow(bs, bs', b, blockno);
    assert blockno in LockedSet(bs) && blockno in RefSet(bs);
  }

  /** What the rest of bread() makes of a buffer when its lock is taken. */
  function Resumed(b: Buf, disk: seq<Block>, blockno: int): Buf
    requires 0 <= blockno < |disk|
  {
    if b.valid then b.(locked := true) else b.(locked := true, data := disk[blockno], valid := true)
  }

  lemma {:induction false} ResumeParts(bs: seq<Buf>, ring: seq<int>, disk: seq<Block>, b: int, blockno: int)
    requires CacheInv(bs, ring, disk) && 0 <= b < |bs| - 1 && Holds(bs[b], blockno) && bs[b].refcnt > 0 && !bs[b].locked
    ensures 0 <= blockno < |disk| && CacheInv(bs[b := bs[b].(locked := true)], ring, disk)
    ensures var bs' := bs[b := Resumed(bs[b], disk, blockno)];
            && View(bs', disk) == View(bs, disk) && DirtySet(bs') == DirtySet(bs) && LockedSet(bs') == LockedSet(bs) + {blockno}
            && FreeSet(bs') == FreeSet(bs) && RefSet(bs') == RefSet(bs)
            && bs'[b].data == View(bs, disk)[blockno] && bs'[b].dirty == (blockno in DirtySet(bs))
            && (!bs'[b].dirty ==> bs'[b].data == disk[blockno]) && (bs[b].dirty ==> bs[b].valid)
  {
    var bs' := bs[b := Resumed(bs[b], disk, blockno)];
    assert BufOk(bs[b], disk);
    FoundAt(bs, blockno, b);
    ReplaceInv(bs, ring, disk, b, bs[b].(locked := true));
    ViewSame(bs, bs', disk);
    LockedAt(bs, bs', disk, b, blockno);
    RefsSame(bs, bs');
    HeldView(bs, disk, b, blockno);
  }

  lemma {:induction false} HeldView(bs: seq<Buf>, disk: seq<Block>, b: int, blockno: int)
    requires Unique(bs) && BufsOk(bs, disk) && 0 <= b < |bs| - 1 && Holds(bs[b], blockno)
    ensures blockno in DirtySet(bs) <==> bs[b].dirty
    ensures 0 <= blockno < |disk| && View(bs, disk)[blockno] == if bs[b].dirty then bs[b].data else disk[blockno]
  {
    assert BufOk(bs[b], disk);
    FoundAt(bs, blockno, b);
    forall k | 0 <= k < |bs| - 1 && bs[k].dirty && bs[k].blockno == blockno ensures k == b {
      assert BufOk(bs[k], disk);
      FoundAt(bs, blockno, k);
    }
  }

  /** bs and bs' differ in links only. */
  ghost predicate SameButLinks(bs: seq<Buf>, bs': seq<Buf>) {
    |bs| == |bs'| && forall k :: 0 <= k < |bs| ==> bs'[k] == bs[k].(prev := bs'[k].prev, next := bs'[k].next)
  }

  lemma {:induction false} NextSet(bs: seq<Buf>, bs': seq<Buf>, k: int, v: int)
    requires 0 <= k < |bs| && bs' == bs[k := bs[k].(next := v)]
    ensures Nx(bs') == Nx(bs)[k := v] && Pv(bs') == Pv(bs) && SameButLinks(bs, bs')
  {
  }

  lemma {:induction false} PrevSet(bs: seq<Buf>, bs': seq<Buf>, k: int, v: int)
    requires 0 <= k < |bs| && bs' == bs[k := bs[k].(prev := v)]
    ensures Pv(bs') == Pv(bs)[k := v] && Nx(bs') == Nx(bs) && SameButLinks(bs, bs')
  {
  }

  lemma {:induction false} LinksInv(bs: seq<Buf>, bs': seq<Buf>, ring': seq<int>, disk: seq<Block>)
    requires BufsOk(bs, disk) && Unique(bs) && SameButLinks(bs, bs') && RingOk(bs', ring')
    ensures CacheInv(bs', ring', disk)
    ensures View(bs', disk) == View(bs, disk) && DirtySet(bs') == DirtySet(bs)
  {
    forall k | 0 <= k < |bs| - 1 ensures BufOk(bs'[k], disk) { assert BufOk(bs[k], disk); }
    ViewSame(bs, bs', disk);
  }

  /** ring with b moved to its front; n is b's position. */
  ghost function ToFront(ring: seq<int>, b: int, n: nat): seq<int>
    requires n < |ring|
  {
    [b] + ring[..n] + ring[n + 1..]
  }

  lemma {:induction false} FrontWalk(h: int, ring: seq<int>, b: int, n: nat)
    requires n < |ring| && ring[n] == b && Distinct(ring) && h !in ring
    ensures var c := [h] + ring[..n] + ring[n + 1..] + [h];
            && Dropped(Walk(h, ring), c, n + 1) && Dropped(Walk(h, ToFront(ring, b, n)), c, 1) && b !in c
            && Walk(h, ring)[n + 1] == b && Walk(h, ToFront(ring, b, n))[1] == b
    ensures forall x :: x in ToFront(ring, b, n) <==> x in ring
  {
    assert ring == ring[..n] + [b] + ring[n + 1..];
  }

  /** b's place in the ring, and the ring without b. */
  lemma {:induction false} FrontReady(bs: seq<Buf>, ring: seq<int>, b: int) returns (n: nat, c: seq<int>)
    requires RingOk(bs, ring) && 0 <= b < |bs| - 1
    ensures n < |ring| && ring[n] == b && Circular(Nx(bs), Pv(bs), Walk(|bs| - 1, ring))
    ensures var d, d' := Walk(|bs| - 1, ring), Walk(|bs| - 1, ToFront(ring, b, n));
            && n + 1 < |d| - 1 && d[n + 1] == b && Dropped(d, c, n + 1)
            && |d'| > 2 && d'[1] == b && Dropped(d', c, 1) && c != [] && c[0] == |bs| - 1 && b !in c
  {
    WalkDistinct(Nx(bs), Pv(bs), |bs| - 1, ring);
    assert b in ring;
    n :| 0 <= n < |ring| && ring[n] == b;
    FrontWalk(|bs| - 1, ring, b, n);
    c := [|bs| - 1] + ring[..n] + ring[n + 1..] + [|bs| - 1];
  }

  lemma {:induction false} FrontOk(bs: seq<Buf>, bs': seq<Buf>, ring: seq<int>, b: int, n: nat)
    requires RingOk(bs, ring) && |bs'| == |bs| && n < |ring| && Circular(Nx(bs'), Pv(bs'), Walk(|bs| - 1, ToFront(ring, b, n)))
    requires Walk(|bs| - 1, ring)[n + 1] == b
    ensures RingOk(bs', ToFront(ring, b, n)) && (ring[n] == b ==> MovedToFront(ring, ToFront(ring, b, n), b))
  {
    hide Circular;
    var r := ring[..n] + [b] + ring[n + 1..];
    assert ring == r;
    assert forall x :: x in ToFront(ring, b, n) <==> x in r;
  }

  lemma {:induction false} LinksTwice(bs: seq<Buf>, bs': seq<Buf>, bs'': seq<Buf>)
    requires SameButLinks(bs, bs') && SameButLinks(bs', bs'')
    ensures SameButLinks(bs, bs'') && |bs''| == |bs|
  {
  }

  lemma {:induction false} JoinWalk(h: int, ring: seq<int>, b: int)
    requires b !in ring && b != h
    ensures var d := Walk(h, [b] + ring); |d| > 2 && Dropped(d, Walk(h, ring), 1) && d[1] == b && b !in Walk(h, ring)
  {
  }

  /** binit()'s buffers hold nothing. */
  lemma {:induction false} FreshCache(bs: seq<Buf>, ring: seq<int>, disk: seq<Block>)
    requires |bs| > 1 && Circular(Nx(bs), Pv(bs), Walk(|bs| - 1, ring)) && forall x :: x in ring <==> 0 <= x < |bs| - 1
    requires forall k :: 0 <= k < |bs| - 1 ==> bs[k].dev == 0 && !bs[k].valid && !bs[k].dirty && bs[k].refcnt == 0 && !bs[k].locked
    ensures CacheInv(bs, ring, disk) && View(bs, disk) == disk && FreeSet(bs) == UpTo(|bs| - 1)
    ensures DirtySet(bs) == {} && LockedSet(bs) == {} && RefSet(bs) == {}
  {
  }

  lemma {:induction false} AllDirtyRoot(bs: seq<Buf>, disk: seq<Block>)
    requires BufsOk(bs, disk)
    ensures forall k :: 0 <= k < |bs| - 1 && bs[k].dirty ==> bs[k].dev == 1
  {
    forall k | 0 <= k < |bs| - 1 && bs[k].dirty ensures bs[k].dev == 1 { assert BufOk(bs[k], disk); }
  }

  /** Replacing a buffer of a block by another state of it. */
  lemma {:induction false} ReplaceHeld(bs: seq<Buf>, ring: seq<int>, disk: seq<Block>, k: int, b: Buf, blockno: int)
    requires CacheInv(bs, ring, disk) && 0 <= k < |bs| - 1 && Holds(bs[k], blockno) && SameBlock(bs[k], b)
    requires b.prev == bs[k].prev && b.next == bs[k].next && (BufOk(bs[k], disk) ==> BufOk(b, disk))
    ensures CacheInv(bs[k := b], ring, disk) && 0 <= blockno < |disk|
    ensures View(bs[k := b], disk) == View(bs, disk)[blockno := if b.dirty then b.data else disk[blockno]]
    ensures !bs[k].dirty && !b.dirty ==> View(bs[k := b], disk) == View(bs, disk)
    ensures bs[k].dirty && b.dirty && b.data == bs[k].data ==> View(bs[k := b], disk) == View(bs, disk)
    ensures DirtySet(bs[k := b]) == if b.dirty then DirtySet(bs) + {blockno} else DirtySet(bs) - {blockno}
    ensures bs[k].dirty == b.dirty ==> DirtySet(bs[k := b]) == DirtySet(bs)
  {
    assert BufOk(bs[k], disk);
    FoundAt(bs, blockno, k);
    ReplaceInv(bs, ring, disk, k, b);
    AllDirtyRoot(bs, disk);
    ViewAt(bs, bs[k := b], disk, disk, k);
    if bs[k].dirty == b.dirty && (b.dirty ==> b.data == bs[k].data) { ViewSame(bs, bs[k := b], disk); }
    HeldView(bs, disk, k, blockno);
  }

  /** The buffers when the holder of b gives it back. */
  ghost function GivenBack(bs: seq<Buf>, b: int): seq<Buf>
    requires 0 <= b < |bs|
  {
    bs[b := bs[b].(refcnt := bs[b].refcnt - 1, locked := false)]
  }

  lemma {:induction false} GiveBack(bs: seq<Buf>, ring: seq<int>, disk: seq<Block>, b: int, blockno: int)
    requires CacheInv(bs, ring, disk) && 0 <= b < |bs| - 1 && Holds(bs[b], blockno) && bs[b].locked && bs[b].valid
    requires 0 <= blockno < |disk| ==> bs[b].dirty || bs[b].data == disk[blockno]
    ensures CacheInv(GivenBack(bs, b), ring, disk) && bs[b].refcnt > 0 && 0 <= blockno < |disk|
    ensures RingOk(GivenBack(bs, b), ring)
    ensures View(GivenBack(bs, b), disk) == View(bs, disk) && DirtySet(GivenBack(bs, b)) == DirtySet(bs)
    ensures LockedSet(GivenBack(bs, b)) == LockedSet(bs) - {blockno}
    ensures RefSet(GivenBack(bs, b)) == if bs[b].refcnt == 1 then RefSet(bs) - {blockno} else RefSet(bs)
    ensures FreeSet(GivenBack(bs, b)) == if bs[b].refcnt == 1 && !bs[b].dirty then FreeSet(bs) + {b} else FreeSet(bs)
  {
    var bs' := GivenBack(bs, b);
    HeldBusy(bs, disk, b);
    ReplaceHeld(bs, ring, disk, b, bs'[b], blockno);
    LockedNoMore(bs, bs', disk, b, blockno);
    RefsSet(bs, bs', disk, b, blockno);
    assert blockno in RefSet(bs);
  }

  lemma {:induction false} LinksKept(bs: seq<Buf>, bs': seq<Buf>, ring': seq<int>, disk: seq<Block>)
    requires BufsOk(bs, disk) && Unique(bs) && SameButLinks(bs, bs') && RingOk(bs', ring')
    ensures CacheInv(bs', ring', disk)
    ensures View(bs', disk) == View(bs, disk) && DirtySet(bs') == DirtySet(bs) && LockedSet(bs') == LockedSet(bs)
    ensures FreeSet(bs') == FreeSet(bs) && RefSet(bs') == RefSet(bs)
  {
    LinksInv(bs, bs', ring', disk);
    LockedSame(bs, bs');
    RefsSame(bs, bs');
  }

  lemma {:induction false} WalkDistinct(nx: seq<int>, pv: seq<int>, h: int, ring: seq<int>)
    requires Circular(nx, pv, Walk(h, ring))
    ensures Distinct(ring) && h !in ring
  {
    var e := Walk(h, ring);
    assert forall k :: 0 <= k < |ring| ==> ring[k] == e[k + 1];
    assert e[|e| - 1] == h;
  }

  // ---------------------------------------------------------------- the cache

  class Cache {
    const nbuf: nat
    const bufs: array<Buf>
    var disk: seq<Block>
    ghost var ring: seq<int>
    ghost var trace: seq<seq<Block>>   // the disk after each write so far

    ghost predicate Valid()
      reads this, bufs
    {
      nbuf > 0 && bufs.Length == nbuf + 1 && CacheInv(bufs[..], ring, disk)
    }

    /** bget()'s first loop: the buffer of the block, or -1. */
    method Lookup(blockno: int) returns (b: int)
      requires Valid()
      ensures b == Cached(bufs[..], blockno)
    {
      ghost var bs, e := bufs[..], Walk(nbuf, ring);
      ghost var k := 1;
      b := bufs[nbuf].next;
      while b != nbuf
        invariant 1 <= k < |e| && b == e[k]
        invariant forall j :: 1 <= j < k ==> !Holds(bs[e[j]], blockno)
        decreases |e| - k
      {
        if bufs[b].dev == 1 && bufs[b].blockno == blockno {
          FoundAt(bs, blockno, b);
          return;
        }
        b := bufs[b].next;
        k := k + 1;
      }
      b := -1;
      forall x | 0 <= x < nbuf ensures !Holds(bs[x], blockno) {
        assert x in ring;
        var j :| 0 <= j < |ring| && ring[j] == x;
        assert e[j + 1] == x;
      }
    }

    /** bget()'s second loop: the least recently used buffer that is free, or -1. */
    method Victim() returns (b: int)
      requires Valid()
      ensures b == -1 ==> forall k :: 0 <= k < nbuf ==> Busy(bufs[k])
      ensures b != -1 ==> 0 <= b < nbuf && !Busy(bufs[b])
      ensures b != -1 ==> LeastRecent(bufs[..], ring, b)
    {
      ghost var e := Walk(nbuf, ring);
      ghost var k := |e| - 2;
      b := bufs[nbuf].prev;
      while b != nbuf
        invariant 0 <= k < |e| - 1 && b == e[k]
        invariant forall j :: k < j < |e| - 1 ==> Busy(bufs[..][e[j]])
        decreases k
      {
        if bufs[b].refcnt == 0 && !bufs[b].dirty {
          assert ring[k - 1] == b;
          assert forall j :: k - 1 < j < |ring| ==> ring[j] == e[j + 1];
          return;
        }
        b := bufs[b].prev;
        k := k - 1;
      }
      b := -1;
      forall x | 0 <= x < nbuf ensures Busy(bufs[x]) {
        assert x in ring;
        var j :| 0 <= j < |ring| && ring[j] == x;
        assert e[j + 1] == x;
      }
    }

    /** bget() up to acquiresleep(): a buffer for the block with one more reference; -1 where bget() panics.  got says that
        the caller has its lock; otherwise somebody else has it, and acquiresleep() waits until it is given back. */
    method Bget(blockno: int) returns (b: int, got: bool)
      requires Valid() && 0 <= blockno < |disk|
      modifies bufs
      ensures Valid()
      ensures b == -1 <==> Cached(old(bufs[..]), blockno) == -1 && forall k :: 0 <= k < nbuf ==> Busy(old(bufs[k]))
      ensures b == -1 ==> bufs[..] == old(bufs[..])
      ensures b != -1 ==> 0 <= b < nbuf && (Cached(old(bufs[..]), blockno) == b || (Cached(old(bufs[..]), blockno) == -1 && !Busy(old(bufs[b]))))
      ensures b != -1 ==> bufs[..] == old(bufs[..])[b := if Cached(old(bufs[..]), blockno) == b
                            then old(bufs[b]).(refcnt := old(bufs[b]).refcnt + 1, locked := true)
                            else Recycled(old(bufs[b]), blockno)]
      ensures b != -1 && Cached(old(bufs[..]), blockno) == -1 ==> LeastRecent(old(bufs[..]), ring, b)
      ensures got <==> b != -1 && !(Cached(old(bufs[..]), blockno) == b && old(bufs[b]).locked)
    {
      b := Lookup(blockno);
      if b != -1 {
        var nb := bufs[b].(refcnt := bufs[b].refcnt + 1, locked := true);
        ReplaceInv(bufs[..], ring, disk, b, nb);
        got := !bufs[b].locked;
        bufs[b] := nb;
        return;
      }
      b := Victim();
      if b == -1 { return -1, false; }
      ReplaceInv(bufs[..], ring, disk, b, Recycled(bufs[b], blockno));
      bufs[b] := Recycled(bufs[b], blockno);
      got := true;
    }

    /** iderw(): a dirty buffer is written, an invalid one is read.  The requires are iderw()'s panics. */
    method Iderw(b: int)
      requires Valid() && 0 <= b < nbuf && bufs[b].locked && (bufs[b].dirty || !bufs[b].valid)
      requires bufs[b].dev == 1 && 0 <= bufs[b].blockno < |disk|
      modifies this, bufs
      ensures Valid() && ring == old(ring)
      ensures bufs[..] == old(bufs[..])[b := if old(bufs[b].dirty) then old(bufs[b]).(dirty := false, valid := true)
                            else old(bufs[b]).(data := old(disk[bufs[b].blockno]), valid := true)]
      ensures disk == if old(bufs[b].dirty) then old(disk)[old(bufs[b].blockno) := old(bufs[b].data)] else old(disk)
      ensures trace == if old(bufs[b].dirty) then old(trace) + [disk] else old(trace)
    {
      if bufs[b].dirty {
        WriteInv(bufs[..], ring, disk, b);
        disk := disk[bufs[b].blockno := bufs[b].data];
        trace := trace + [disk];
        bufs[b] := bufs[b].(dirty := false, valid := true);
      } else {
        ReplaceInv(bufs[..], ring, disk, b, bufs[b].(data := disk[bufs[b].blockno], valid := true));
        bufs[b] := bufs[b].(data := disk[bufs[b].blockno], valid := true);
      }
    }

    ghost function Contents(): seq<Block>
      requires Valid()
      reads this, bufs
    {
      View(bufs[..], disk)
    }

    ghost function Dirty(): set<int>
      requires Valid()
      reads this, bufs
    {
      DirtySet(bufs[..])
    }

    ghost function Locked(): set<int>
      requires Valid()
      reads this, bufs
    {
      LockedSet(bufs[..])
    }

    /** The buffers that can be recycled. */
    ghost function Free(): set<int>
      requires Valid()
      reads this, bufs
    {
      FreeSet(bufs[..])
    }

    /** The blocks whose buffer somebody holds or waits for. */
    ghost function Refs(): set<int>
      requires Valid()
      reads this, bufs
    {
      RefSet(bufs[..])
    }

    lemma {:induction false} LockedReferenced()
      requires Valid()
      ensures Locked() <= Refs()
    {
      forall k | 0 <= k < nbuf && bufs[k].locked ensures bufs[k].refcnt > 0 { HeldBusy(bufs[..], disk, k); }
      assert forall k :: 0 <= k < nbuf ==> bufs[..][k] == bufs[k];
    }

    /** With no buffer referenced, exactly the dirty ones cannot be recycled, one for each dirty block. */
    lemma {:induction false} FreeBuffers()
      requires Valid() && Refs() == {}
      ensures |Free()| == nbuf - |Dirty()|
    {
      FreeCount(bufs[..], disk);
    }

    /** The caller holds buffer b of the block, read in. */
    ghost predicate Held(b: int, blockno: int)
      reads this, bufs
    {
      0 <= b < nbuf && b < bufs.Length && Holds(bufs[b], blockno) && bufs[b].locked && bufs[b].valid
    }

    /** With one buffer in all, and that one held, no other block has a buffer and none can be recycled. */
    lemma {:induction false} OneBuffer(b: int, blockno: int, other: int)
      requires Valid() && Held(b, blockno) && other != blockno && !bufs[b].dirty
      ensures nbuf == 1 ==> Free() == {} && other !in Dirty() && other !in Refs()
    {
      HeldBusy(bufs[..], disk, b);
    }

    /** A block without a dirty buffer reads as it is on disk. */
    lemma {:induction false} CleanContents(blockno: int)
      requires Valid() && 0 <= blockno < |disk| && blockno !in Dirty()
      ensures Contents()[blockno] == disk[blockno]
    {
      var k := Cached(bufs[..], blockno);
      if k != -1 { HeldView(bufs[..], disk, k, blockno); }
    }

    lemma {:induction false} AllClean()
      requires Valid()
      ensures Dirty() == {} ==> Contents() == disk
    {
      if Dirty() == {} {
        forall b | 0 <= b < |disk| ensures Contents()[b] == disk[b] { CleanContents(b); }
      }
    }

    /** bread(): a held buffer with the contents of the block; -1 where bget() panics.  If somebody else holds the buffer,
        got is false: the caller has its reference and waits, and goes on as Resume() says. */
    method Bread(blockno: int) returns (b: int, got: bool)
      requires Valid() && 0 <= blockno < |disk|
      modifies this, bufs
      ensures Valid() && disk == old(disk) && trace == old(trace) && ring == old(ring)
      ensures Contents() == old(Contents()) && Dirty() == old(Dirty())
      ensures b == -1 <==> Cached(old(bufs[..]), blockno) == -1 && forall k :: 0 <= k < nbuf ==> Busy(old(bufs[k]))
      ensures b == -1 <==> old(Free()) == {} && blockno !in Dirty() && blockno !in old(Refs())
      ensures b != -1 && Cached(old(bufs[..]), blockno) == -1 ==> LeastRecent(old(bufs[..]), ring, b)
      ensures got <==> b != -1 && blockno !in old(Locked())
      ensures b != -1 ==> 0 <= b < nbuf && Holds(bufs[b], blockno) && bufs[b].locked && bufs[b].refcnt > 0
      ensures b != -1 && !got ==> bufs[b] == old(bufs[b]).(refcnt := old(bufs[b].refcnt) + 1)
      ensures b != -1 ==> Free() == old(Free()) - {b} && (b in old(Free()) <==> blockno !in Dirty() && blockno !in old(Refs()))
      ensures got ==> Held(b, blockno) && bufs[b].data == Contents()[blockno]
      ensures got && !bufs[b].dirty ==> bufs[b].data == disk[blockno]
      ensures got ==> bufs[b].dirty == (blockno in Dirty())
      ensures forall k :: 0 <= k < nbuf && k != b ==> bufs[k] == old(bufs[k])
      ensures Locked() == if b == -1 then old(Locked()) else old(Locked()) + {blockno}
      ensures got ==> !old(bufs[b]).locked
      ensures Refs() == if b == -1 then old(Refs()) else old(Refs()) + {blockno}
      ensures b != -1 ==> (bufs[b].refcnt == 1 <==> blockno !in old(Refs()))
    {
      hide CacheInv, View, DirtySet, LockedSet, FreeSet, RefSet, Cached, Busy, BufOk, Got, LeastRecent;
      ghost var bs := bufs[..];
      BeforeBread(bs, ring, disk, blockno);
      b, got := Bget(blockno);
      if b == -1 { return; }
      if !got {
        WaitParts(bs, ring, disk, b, blockno);
        return;
      }
      GotParts(bs, ring, disk, b, blockno);
      GotRoot(bs, disk, b, blockno);
      if !bufs[b].valid { Iderw(b); }
      assert bufs[..] == bs[b := Got(bs, disk, b, blockno)] by { GotIs(bs, bufs[..], disk, b, blockno); }
    }

    /** The rest of bread() for a caller that waited in acquiresleep() with a reference to buffer b, once its lock is free. */
    method Resume(b: int, ghost blockno: int)
      requires Valid() && 0 <= b < nbuf && Holds(bufs[b], blockno) && bufs[b].refcnt > 0 && !bufs[b].locked
      modifies this, bufs
      ensures Valid() && disk == old(disk) && trace == old(trace) && ring == old(ring)
      ensures Contents() == old(Contents()) && Dirty() == old(Dirty()) && Free() == old(Free()) && Refs() == old(Refs())
      ensures Held(b, blockno) && bufs[b].data == Contents()[blockno] && bufs[b].dirty == (blockno in Dirty())
      ensures !bufs[b].dirty ==> bufs[b].data == disk[blockno]
      ensures Locked() == old(Locked()) + {blockno} && bufs[b].refcnt == old(bufs[b].refcnt)
      ensures forall k :: 0 <= k < nbuf && k != b ==> bufs[k] == old(bufs[k])
    {
      hide CacheInv, View, DirtySet, LockedSet, FreeSet, RefSet, BufOk;
      ghost var bs := bufs[..];
      ResumeParts(bs, ring, disk, b, blockno);
      bufs[b] := bufs[b].(locked := true);
      if !bufs[b].valid { Iderw(b); }
      assert bufs[..] == bs[b := Resumed(bs[b], disk, blockno)];
    }

    method SetNext(k: int, v: int)
      requires 0 <= k < bufs.Length
      modifies bufs
      ensures SameButLinks(old(bufs[..]), bufs[..])
      ensures Nx(bufs[..]) == Nx(old(bufs[..]))[k := v] && Pv(bufs[..]) == Pv(old(bufs[..]))
    {
      NextSet(bufs[..], bufs[..][k := bufs[k].(next := v)], k, v);
      bufs[k] := bufs[k].(next := v);
    }

    method SetPrev(k: int, v: int)
      requires 0 <= k < bufs.Length
      modifies bufs
      ensures SameButLinks(old(bufs[..]), bufs[..])
      ensures Pv(bufs[..]) == Pv(old(bufs[..]))[k := v] && Nx(bufs[..]) == Nx(old(bufs[..]))
    {
      PrevSet(bufs[..], bufs[..][k := bufs[k].(prev := v)], k, v);
      bufs[k] := bufs[k].(prev := v);
    }

    /** b->next->prev = b->prev; b->prev->next = b->next. */
    method Detach(b: int, ghost d: seq<int>, ghost c: seq<int>, ghost n: nat)
      requires 0 <= b < bufs.Length && Circular(Nx(bufs[..]), Pv(bufs[..]), d)
      requires 0 < n < |d| - 1 && d[n] == b && Dropped(d, c, n)
      modifies bufs
      ensures SameButLinks(old(bufs[..]), bufs[..]) && Circular(Nx(bufs[..]), Pv(bufs[..]), c)
    {
      ghost var nx, pv := Nx(bufs[..]), Pv(bufs[..]);
      CircleLeaves(nx, pv, d, c, n);
      assert nx[b] == bufs[b].next == d[n + 1] != b && pv[b] == bufs[b].prev == d[n - 1];
      hide Circular, Dropped, SameButLinks;
      SetPrev(bufs[b].next, bufs[b].prev);
      assert Pv(bufs[..])[b] == bufs[b].prev && Nx(bufs[..])[b] == bufs[b].next;
      SetNext(bufs[b].prev, bufs[b].next);
    }

    /** b->next = head.next; b->prev = &head; head.next->prev = b; head.next = b. */
    method Attach(b: int, ghost c: seq<int>, ghost d: seq<int>)
      requires bufs.Length == nbuf + 1 && 0 <= b < nbuf && Circular(Nx(bufs[..]), Pv(bufs[..]), c) && c[0] == nbuf && b !in c
      requires |d| > 2 && d[1] == b && Dropped(d, c, 1)
      modifies bufs
      ensures SameButLinks(old(bufs[..]), bufs[..]) && Circular(Nx(bufs[..]), Pv(bufs[..]), d)
    {
      ghost var nx, pv := Nx(bufs[..]), Pv(bufs[..]);
      CircleJoins(nx, pv, c, d, b);
      assert nx[nbuf] == bufs[nbuf].next == c[1] && 0 <= c[1] <= nbuf;
      SetNext(b, bufs[nbuf].next);
      assert Nx(bufs[..])[nbuf] == bufs[nbuf].next;
      SetPrev(b, nbuf);
      SetPrev(bufs[nbuf].next, b);
      SetNext(nbuf, b);
    }

    /** brelse()'s pointer surgery: b moves to the front of the ring. */
    method MoveToFront(b: int)
      requires bufs.Length == nbuf + 1 && 0 <= b < nbuf && RingOk(bufs[..], ring)
      modifies this`ring, bufs
      ensures SameButLinks(old(bufs[..]), bufs[..]) && RingOk(bufs[..], ring)
      ensures MovedToFront(old(ring), ring, b)
    {
      hide RingOk, Circular, Dropped, SameButLinks, Walk, Nx, Pv, ToFront, MovedToFront;
      ghost var bs := bufs[..];
      ghost var n, c := FrontReady(bs, ring, b);
      Detach(b, Walk(nbuf, ring), c, n + 1);
      ghost var bs' := bufs[..];
      Attach(b, c, Walk(nbuf, ToFront(ring, b, n)));
      LinksTwice(bs, bs', bufs[..]);
      FrontOk(bs, bufs[..], ring, b, n);
      ring := ToFront(ring, b, n);
    }

    /** brelse(): the buffer is given back; the last user moves it to the front of the ring.  Its data must agree with the
        disk unless it is dirty. */
    method Brelse(b: int, ghost blockno: int)
      requires Valid() && Held(b, blockno) && (bufs[b].dirty || bufs[b].data == disk[blockno])
      modifies this`ring, bufs
      ensures Valid() && Locked() == old(Locked()) - {blockno}
      ensures Contents() == old(Contents()) && Dirty() == old(Dirty())
      ensures bufs[b].refcnt == old(bufs[b].refcnt) - 1 && !bufs[b].locked
      ensures Free() == if old(bufs[b].refcnt) == 1 && !old(bufs[b].dirty) then old(Free()) + {b} else old(Free())
      ensures SameButLinks(old(bufs[..])[b := old(bufs[b]).(refcnt := old(bufs[b].refcnt) - 1, locked := false)], bufs[..])
      ensures if bufs[b].refcnt == 0 then MovedToFront(old(ring), ring, b) else ring == old(ring)
      ensures Refs() == if old(bufs[b].refcnt) == 1 then old(Refs()) - {blockno} else old(Refs())
    {
      hide CacheInv, View, DirtySet, LockedSet, FreeSet, RefSet, BufOk, RingOk, MovedToFront;
      ghost var bs := bufs[..];
      GiveBack(bs, ring, disk, b, blockno);
      bufs[b] := bufs[b].(locked := false);
      bufs[b] := bufs[b].(refcnt := bufs[b].refcnt - 1);
      ghost var bs' := GivenBack(bs, b);
      assert bufs[..] == bs';
      if bufs[b].refcnt == 0 {
        MoveToFront(b);
        LinksKept(bs', bufs[..], ring, disk);
      }
    }

    /** The caller changes the data of a buffer it holds. */
    method SetData(b: int, data: Block, ghost blockno: int)
      requires Valid() && Held(b, blockno)
      modifies bufs
      ensures Valid() && bufs[..] == old(bufs[..])[b := old(bufs[b]).(data := data)]
      ensures Dirty() == old(Dirty()) && Locked() == old(Locked()) && Free() == old(Free()) && Refs() == old(Refs())
      ensures Contents() == if bufs[b].dirty then old(Contents())[blockno := data] else old(Contents())
    {
      ghost var bs := bufs[..];
      HeldBusy(bs, disk, b);
      ReplaceHeld(bs, ring, disk, b, bs[b].(data := data), blockno);
      bufs[b] := bufs[b].(data := data);
      LockedSame(bs, bufs[..]);
      RefsSame(bs, bufs[..]);
    }

    /** bwrite(): the held buffer goes to disk. */
    method Bwrite(b: int, ghost blockno: int)
      requires Valid() && Held(b, blockno)
      modifies this, bufs
      ensures Valid() && ring == old(ring)
      ensures bufs[..] == old(bufs[..])[b := old(bufs[b]).(dirty := false)]
      ensures disk == old(disk)[blockno := bufs[b].data] && trace == old(trace) + [disk]
      ensures Contents() == old(Contents())[blockno := bufs[b].data] && Dirty() == old(Dirty()) - {blockno}
      ensures Locked() == old(Locked()) && Free() == old(Free()) && Refs() == old(Refs())
    {
      ghost var bs := bufs[..];
      HeldBusy(bs, disk, b);
      ReplaceHeld(bs, ring, disk, b, bs[b].(dirty := true), blockno);
      bufs[b] := bufs[b].(dirty := true);
      ghost var bs', d := bufs[..], disk;
      Iderw(b);
      AllDirtyRoot(bs', d);
      ViewAt(bs', bufs[..], d, disk, b);
      LockedSame(bs, bufs[..]);
      RefsSame(bs, bufs[..]);
    }

    /** b->flags |= B_DIRTY, as log_write() does. */
    method MarkDirty(b: int, ghost blockno: int)
      requires Valid() && Held(b, blockno)
      modifies bufs
      ensures Valid() && bufs[..] == old(bufs[..])[b := old(bufs[b]).(dirty := true)]
      ensures Contents() == old(Contents())[blockno := bufs[b].data] && Dirty() == old(Dirty()) + {blockno}
      ensures Locked() == old(Locked()) && Free() == old(Free()) && Refs() == old(Refs())
    {
      ghost var bs := bufs[..];
      HeldBusy(bs, disk, b);
      ReplaceHeld(bs, ring, disk, b, bs[b].(dirty := true), blockno);
      bufs[b] := bufs[b].(dirty := true);
      LockedSame(bs, bufs[..]);
      RefsSame(bs, bufs[..]);
    }

    /** binit(): every buffer empty, the last one initialised in front. */
    constructor (nbuf: nat, disk: seq<Block>)
      requires nbuf > 0
      ensures Valid() && this.nbuf == nbuf && this.disk == disk && trace == []
      ensures Contents() == disk && Dirty() == {} && Locked() == {} && Refs() == {} && Free() == UpTo(nbuf)
      ensures |ring| == nbuf && forall k :: 0 <= k < nbuf ==> ring[k] == nbuf - 1 - k
      ensures fresh(bufs)
    {
      hide CacheInv, View, DirtySet, LockedSet, FreeSet, RefSet, UpTo;
      this.nbuf, this.disk, trace := nbuf, disk, [];
      var none := Buf(0, 0, false, false, 0, false, nbuf, nbuf, []);
      bufs := new Buf[nbuf + 1](_ => none);
      ring := [];
      new;
      for b := 0 to nbuf
        invariant this.disk == disk && trace == [] && fresh(bufs)
        invariant forall k :: 0 <= k < nbuf ==> bufs[k] == none.(prev := bufs[k].prev, next := bufs[k].next)
        invariant Circular(Nx(bufs[..]), Pv(bufs[..]), Walk(nbuf, ring))
        invariant forall x :: x in ring <==> 0 <= x < b
        invariant |ring| == b && forall k :: 0 <= k < b ==> ring[k] == b - 1 - k
      {
        ghost var bs := bufs[..];
        JoinWalk(nbuf, ring, b);
        hide Circular, Dropped;
        Attach(b, Walk(nbuf, ring), Walk(nbuf, [b] + ring));
        ring := [b] + ring;
      }
      FreshCache(bufs[..], ring, disk);
    }
  }
}
