/** umalloc.c: the allocator of Kernighan and Ritchie, The C Programming Language,
    2nd edition, section 8.7. */
module Malloc {
  import opened FreeRing

  const HEADER := 8              // sizeof(Header)
  const UINT := 0x1_0000_0000
  const MIN_UNITS := 4096        // the least that morecore() asks for

  // ---------------------------------------------------------------- what a program sees

  /** The units of allocated blocks, each with its block. */
  ghost function Used(ring: seq<int>, owner: map<int, int>): map<int, int> {
    map u | u in owner && owner[u] !in ring :: owner[u]
  }

  /** The units of free blocks. */
  ghost function Pool(ring: seq<int>, owner: map<int, int>): set<int> {
    set u | u in owner && owner[u] in ring
  }

  /** The units of b. */
  ghost function Block(b: int, n: nat): map<int, int> {
    map u | u in Units(b, n) :: b
  }

  lemma {:induction false} InInserted(ring: seq<int>, r: seq<int>, t: int, b: int, x: int)
    requires IsInserted(ring, r, t, b)
    ensures x in r <==> x == b || x in ring
  {
    if x in ring {
      var k :| 0 <= k < |ring| && ring[k] == x;
      assert r[if k <= t then k else k + 1] == x;
    }
    if x in r {
      var k :| 0 <= k < |r| && r[k] == x;
      if k <= t { assert ring[k] == x; } else if k > t + 1 { assert ring[k - 1] == x; }
    }
  }

  lemma {:induction false} InRemoved(ring: seq<int>, r: seq<int>, base: int, t: int, x: int)
    requires Ascending(ring, base) && IsRemoved(ring, r, t)
    ensures x in r <==> x != ring[t] && x in ring
  {
    if x in ring && x != ring[t] {
      var k :| 0 <= k < |ring| && ring[k] == x;
      assert r[if k < t then k else k - 1] == x;
    }
    if x in r {
      var k :| 0 <= k < |r| && r[k] == x;
      if k < t { assert ring[k] == x && ring[k] < ring[t]; } else { assert ring[k + 1] == x; }
    }
  }

  /** free() takes the units of b from the program. */
  lemma {:induction false} LinkedIn(mem: Memory, ring: seq<int>, r: seq<int>, blk: map<int, int>, owner: map<int, int>, base: int, t: int, b: int)
    requires BlocksOk(mem, blk, owner, base) && IsInserted(ring, r, t, b) && b in blk && b !in ring
    ensures Used(r, owner) == Used(ring, owner) - Units(b, blk[b]) && Pool(r, owner) == Pool(ring, owner) + Units(b, blk[b])
  {
    hide IsInserted;
    forall u | u in owner ensures owner[u] in r <==> owner[u] == b || owner[u] in ring {
      InInserted(ring, r, t, b, owner[u]);
    }
  }

  lemma {:induction false} JoinedUnits(ring: seq<int>, owner: map<int, int>, r: seq<int>, owner': map<int, int>)
    requires forall u :: u in owner' <==> u in owner
    requires forall u :: u in owner ==> (owner[u] in ring <==> owner'[u] in r)
    requires forall u :: u in owner && owner[u] !in ring ==> owner'[u] == owner[u]
    ensures Used(r, owner') == Used(ring, owner) && Pool(r, owner') == Pool(ring, owner)
  {
    forall u ensures u in Pool(r, owner') <==> u in Pool(ring, owner) {
      if u in owner { assert owner[u] in ring <==> owner'[u] in r; }
    }
    forall u ensures u in Used(r, owner') <==> u in Used(ring, owner) {
      if u in owner { assert owner[u] in ring <==> owner'[u] in r; }
    }
    forall u | u in Used(ring, owner) ensures Used(r, owner')[u] == Used(ring, owner)[u] {
    }
  }

  /** Joining free blocks is not seen by the program. */
  lemma {:induction false} Joined(mem: Memory, ring: seq<int>, r: seq<int>, blk: map<int, int>, owner: map<int, int>, base: int, t: int)
    requires BlocksOk(mem, blk, owner, base) && Ascending(ring, base) && 1 <= t < |ring| - 2 && IsRemoved(ring, r, t + 1) && ring[t + 1] in blk
    ensures var c := ring[t + 1];
            var owner' := Handed(owner, c, c + blk[c], ring[t]);
            owner'.Keys == owner.Keys && Used(r, owner') == Used(ring, owner) && Pool(r, owner') == Pool(ring, owner)
  {
    hide IsRemoved, Used, Pool, BlocksOk, Ascending;
    var b, c := ring[t], ring[t + 1];
    var owner' := Handed(owner, c, c + blk[c], b);
    UnitsOf(mem, blk, owner, base, c);
    DistinctAt(ring, base, t);
    assert b in ring && c in ring && b != c;
    forall u | u in owner ensures (owner[u] in ring <==> owner'[u] in r) && (owner[u] !in ring ==> owner'[u] == owner[u]) {
      InRemoved(ring, r, base, t + 1, owner'[u]);
    }
    JoinedUnits(ring, owner, r, owner');
  }

  lemma {:induction false} UnitsOf(mem: Memory, blk: map<int, int>, owner: map<int, int>, base: int, c: int)
    requires BlocksOk(mem, blk, owner, base) && c in blk
    ensures forall u :: u in owner ==> (owner[u] == c <==> c <= u < c + blk[c])
  {
  }

  lemma {:induction false} WholeUnits(ring: seq<int>, r: seq<int>, owner: map<int, int>, b: int, n: nat)
    requires forall u :: u in owner ==> (owner[u] in r <==> owner[u] != b && owner[u] in ring)
    requires (forall u :: u in owner && owner[u] == b ==> b <= u < b + n) && (forall u :: b <= u < b + n ==> u in owner && owner[u] == b)
    requires b in ring
    ensures Used(r, owner) == Used(ring, owner) + Block(b, n)
    ensures Units(b, n) <= Pool(ring, owner) && Pool(r, owner) == Pool(ring, owner) - Units(b, n)
  {
  }

  /** malloc() gives the units of the t-th free block to the program. */
  lemma {:induction false} TookWhole(mem: Memory, ring: seq<int>, r: seq<int>, blk: map<int, int>, owner: map<int, int>, base: int, t: int)
    requires BlocksOk(mem, blk, owner, base) && Ascending(ring, base) && IsRemoved(ring, r, t) && ring[t] in blk
    ensures var b := ring[t];
            && Used(r, owner) == Used(ring, owner) + Block(b, blk[b]) && Units(b, blk[b]) <= Pool(ring, owner)
            && Pool(r, owner) == Pool(ring, owner) - Units(b, blk[b])
  {
    var b := ring[t];
    hide IsRemoved, Ascending, Used, Pool, Block;
    forall u | u in owner ensures owner[u] in r <==> owner[u] != b && owner[u] in ring {
      InRemoved(ring, r, base, t, owner[u]);
    }
    WholeUnits(ring, r, owner, b, blk[b]);
  }

  lemma {:induction false} PartUnits(ring: seq<int>, owner: map<int, int>, owner': map<int, int>, b: int, q: int, n: nat)
    requires owner'.Keys == owner.Keys && b in ring && q !in ring
    requires (forall u :: q <= u < q + n ==> u in owner && owner[u] == b)
    requires (forall u :: u in owner ==> owner'[u] == if q <= u < q + n then q else owner[u])
    ensures Used(ring, owner') == Used(ring, owner) + Block(q, n)
    ensures Units(q, n) <= Pool(ring, owner) && Pool(ring, owner') == Pool(ring, owner) - Units(q, n)
  {
  }

  lemma {:induction false} HandedUnits(mem: Memory, blk: map<int, int>, owner: map<int, int>, base: int, b: int, n: int)
    requires BlocksOk(mem, blk, owner, base) && b in blk && 0 < n < blk[b]
    ensures var q := b + (blk[b] - n);
            var owner' := Handed(owner, q, q + n, q);
            && owner'.Keys == owner.Keys && (forall u :: q <= u < q + n ==> u in owner && owner[u] == b)
            && (forall u :: u in owner ==> owner'[u] == if q <= u < q + n then q else owner[u])
  {
  }

  /** malloc() gives the last n units of free block b to the program. */
  lemma {:induction false} TookPart(mem: Memory, ring: seq<int>, blk: map<int, int>, owner: map<int, int>, base: int, b: int, n: int)
    requires BlocksOk(mem, blk, owner, base) && b in ring && b in blk && 0 < n < blk[b] && b + (blk[b] - n) !in ring
    ensures var q := b + (blk[b] - n);
            var owner' := Handed(owner, q, q + n, q);
            && owner'.Keys == owner.Keys && Used(ring, owner') == Used(ring, owner) + Block(q, n) && Units(q, n) <= Pool(ring, owner)
            && Pool(ring, owner') == Pool(ring, owner) - Units(q, n)
  {
    hide Used, Pool, Block, BlocksOk, Handed;
    var q := b + (blk[b] - n);
    HandedUnits(mem, blk, owner, base, b, n);
    PartUnits(ring, owner, Handed(owner, q, q + n, q), b, q, n);
  }

  /** Memory of the program that stays as it is. */
  ghost predicate Untouched(mem: Memory, mem': Memory, used: map<int, int>) {
    forall u :: u in used && u in mem ==> u in mem' && mem'[u] == mem[u]
  }

  // ---------------------------------------------------------------- free

  /** Some free block has n units. */
  ghost predicate Fits(ring: seq<int>, blk: map<int, int>, n: int) {
    exists k :: 1 <= k < |ring| - 1 && ring[k] in blk && blk[ring[k]] >= n
  }

  lemma {:induction false} FitsAt(ring: seq<int>, blk: map<int, int>, k: int, n: int)
    requires 1 <= k < |ring| - 1 && ring[k] in blk && blk[ring[k]] >= n
    ensures Fits(ring, blk, n)
  {
  }

  /** The two joins of free(), for block bp and the free block p before it. */
  function JoinNext(mem: Memory, p: int, bp: int): Memory
    requires p in mem && bp in mem
  {
    var next := mem[p].ptr;
    if bp + mem[bp].size == next && next in mem then mem[bp := Header(mem[next].ptr, mem[bp].size + mem[next].size)]
    else mem[bp := Header(next, mem[bp].size)]
  }

  function JoinPrev(mem: Memory, p: int, bp: int): Memory
    requires p in mem && bp in mem
  {
    if p + mem[p].size == bp then mem[p := Header(mem[bp].ptr, mem[p].size + mem[bp].size)]
    else mem[p := Header(bp, mem[p].size)]
  }

  /** Where free() puts bp: after the t-th of the ring. */
  ghost predicate Between(ring: seq<int>, t: int, bp: int) {
    0 <= t < |ring| - 1 && ring[t] < bp && (t + 1 < |ring| - 1 ==> bp < ring[t + 1])
  }

  /** A heap as the program sees it. */
  ghost predicate SameView(ring: seq<int>, owner: map<int, int>, ring': seq<int>, owner': map<int, int>) {
    owner'.Keys == owner.Keys && Used(ring', owner') == Used(ring, owner) && Pool(ring', owner') == Pool(ring, owner)
  }

  lemma {:induction false} CoalesceView(mem: Memory, ring: seq<int>, blk: map<int, int>, owner: map<int, int>, base: int, ex: set<int>, t: int)
      returns (mem': Memory, ring': seq<int>, blk': map<int, int>, owner': map<int, int>)
    requires HeapOk(mem, ring, blk, owner, base, ex) && 1 <= t < |ring| - 2 && ring[t] in blk && ring[t] + blk[ring[t]] == ring[t + 1] && t + 1 !in ex
    requires forall k :: k in ex ==> k <= t
    ensures ring[t] in mem && ring[t + 1] in mem && mem' == mem[ring[t] := Header(mem[ring[t + 1]].ptr, mem[ring[t]].size + mem[ring[t + 1]].size)]
    ensures IsRemoved(ring, ring', t + 1) && HeapOk(mem', ring', blk', owner', base, ex - {t}) && SameView(ring, owner, ring', owner')
    ensures ring[t + 1] in blk && ring[t] in blk' && blk'[ring[t]] == blk[ring[t]] + blk[ring[t + 1]] && blk[ring[t]] > 0 && blk[ring[t + 1]] > 0
  {
    hide FreeOk, Handed, IsRemoved, RingOk, BlocksOk, Used, Pool;
    var b, c := ring[t], ring[t + 1];
    Coalesce(mem, ring, blk, owner, base, ex, t);
    RingAt(mem, ring, base, t);
    BlockAt(mem, blk, owner, base, b);
    BlockAt(mem, blk, owner, base, c);
    mem' := mem[b := Header(mem[c].ptr, mem[b].size + mem[c].size)];
    ring', blk', owner' := Removed(ring, t + 1), (blk - {c})[b := blk[b] + blk[c]], Handed(owner, c, c + blk[c], b);
    Joined(mem, ring, ring', blk, owner, base, t);
  }

  /** Linking bp in, then joining it with the next free block if they are adjacent. */
  lemma {:induction false} FreedNext(mem: Memory, ring: seq<int>, blk: map<int, int>, owner: map<int, int>, base: int, t: int, bp: int)
      returns (mem': Memory, ring': seq<int>, blk': map<int, int>, owner': map<int, int>)
    requires HeapOk(mem, ring, blk, owner, base, {}) && bp in blk && bp !in ring && Between(ring, t, bp)
    ensures ring[t] in mem && bp in mem && mem' == JoinNext(mem, ring[t], bp)[ring[t] := Header(bp, mem[ring[t]].size)]
    ensures HeapOk(mem', ring', blk', owner', base, {t}) && t + 1 < |ring'| - 1 && ring'[t] == ring[t] && ring'[t + 1] == bp
    ensures owner'.Keys == owner.Keys && bp in blk' && blk'[bp] >= blk[bp]
    ensures Used(ring', owner') == Used(ring, owner) - Units(bp, blk[bp]) && Pool(ring', owner') == Pool(ring, owner) + Units(bp, blk[bp])
  {
    hide FreeOk, Handed, RingOk, BlocksOk, Used, Pool;
    LinkIn(mem, ring, blk, owner, base, t, bp);
    RingAt(mem, ring, base, t);
    BlockAt(mem, blk, owner, base, bp);
    var p, next := ring[t], ring[t + 1];
    mem' := mem[bp := Header(next, mem[bp].size)][p := Header(bp, mem[p].size)];
    ring', blk', owner' := Inserted(ring, t, bp), blk, owner;
    LinkedIn(mem, ring, ring', blk, owner, base, t, bp);
    RingFirst(mem, ring, base);
    assert ring'[t + 2] == next;
    if bp + blk[bp] == next {
      RingAt(mem, ring, base, t + 1);
      var mem1, ring1, owner1 := mem', ring', owner';
      mem', ring', blk', owner' := CoalesceView(mem1, ring1, blk, owner1, base, {t, t + 1}, t + 1);
      assert {t, t + 1} - {t + 1} == {t};
      assert mem1[next] == mem[next];
      assert mem' == JoinNext(mem, p, bp)[p := Header(bp, mem[p].size)];
    } else {
      NotAdjacent(ring', blk', {t, t + 1}, t + 1);
      assert {t, t + 1} - {t + 1} == {t};
    }
  }

  lemma {:induction false} RingFirst(mem: Memory, ring: seq<int>, base: int)
    requires RingOk(mem, ring, base)
    ensures ring[0] == base && ring[|ring| - 1] == base && |ring| >= 2 && mem[base].size == 0 && forall k :: 1 <= k < |ring| - 1 ==> ring[k] > base
  {
  }

  lemma {:induction false} NotAdjacent(ring: seq<int>, blk: map<int, int>, ex: set<int>, k: int)
    requires FreeOk(ring, blk, ex) && (1 <= k < |ring| - 2 ==> ring[k] + blk[ring[k]] != ring[k + 1])
    ensures FreeOk(ring, blk, ex - {k})
  {
  }

  /** What free() does to the heap. */
  lemma {:induction false} Freed(mem: Memory, ring: seq<int>, blk: map<int, int>, owner: map<int, int>, base: int, t: int, bp: int)
      returns (ring': seq<int>, blk': map<int, int>, owner': map<int, int>)
    requires HeapOk(mem, ring, blk, owner, base, {}) && bp in blk && bp !in ring && Between(ring, t, bp)
    ensures ring[t] in mem && bp in mem && HeapOk(JoinPrev(JoinNext(mem, ring[t], bp), ring[t], bp), ring', blk', owner', base, {})
    ensures ring[t] in ring' && owner'.Keys == owner.Keys && Fits(ring', blk', blk[bp])
    ensures Used(ring', owner') == Used(ring, owner) - Units(bp, blk[bp]) && Pool(ring', owner') == Pool(ring, owner) + Units(bp, blk[bp])
  {
    hide FreeOk, Handed, RingOk, BlocksOk, Used, Pool, JoinNext;
    var mem1, ring1, blk1, owner1 := FreedNext(mem, ring, blk, owner, base, t, bp);
    ring', blk', owner' := ring1, blk1, owner1;
    RingFirst(mem1, ring1, base);
    RingFirst(mem, ring, base);
    NextKeeps(mem, ring[t], bp);
    var p := ring[t];
    if t > 0 {
      FreeAt(ring1, blk1, {t}, t);
      BlockAt(mem1, blk1, owner1, base, p);
    }
    if t > 0 && p + blk1[p] == bp {
      var mem2;
      mem2, ring', blk', owner' := CoalesceView(mem1, ring1, blk1, owner1, base, {t}, t);
      assert {t} - {t} == {};
      assert mem2 == JoinPrev(JoinNext(mem, p, bp), p, bp);
      assert ring'[t] == p;
      FitsAt(ring', blk', t, blk[bp]);
    } else {
      NotAdjacent(ring1, blk1, {t}, t);
      assert {t} - {t} == {};
      assert mem1 == JoinPrev(JoinNext(mem, p, bp), p, bp);
      assert ring'[t] == p;
      FitsAt(ring', blk', t + 1, blk[bp]);
    }
  }

  lemma {:induction false} NextKeeps(mem: Memory, p: int, bp: int)
    requires p in mem && bp in mem && p != bp
    ensures var m := JoinNext(mem, p, bp); p in m && bp in m && m[p] == mem[p] && forall a :: a in mem && a != bp ==> a in m && m[a] == mem[a]
  {
  }

  // ---------------------------------------------------------------- malloc

  /** nunits: the header and enough units for nbytes, in unsigned 32-bit arithmetic. */
  function UnitsFor(nbytes: nat): nat { (nbytes + HEADER - 1) % UINT / HEADER + 1 }

  /** The block has room for nbytes after its header exactly when the addition does not wrap. */
  lemma {:induction false} RoomIff(nbytes: nat)
    requires nbytes < UINT
    ensures (UnitsFor(nbytes) - 1) * HEADER >= nbytes <==> nbytes + HEADER - 1 < UINT
  {
  }

  /** Where nothing wraps, the block is the smallest one with room. */
  lemma {:induction false} LeastUnits(nbytes: nat, n: int)
    requires nbytes + HEADER - 1 < UINT
    ensures (n - 1) * HEADER >= nbytes <==> n >= UnitsFor(nbytes)
  {
  }

  /** A request for 2^32 - 7 bytes wraps to one unit, which is the header alone. */
  lemma {:induction false} WrappedRequest()
    ensures var nbytes := UINT - 7; UnitsFor(nbytes) == 1 && (UnitsFor(nbytes) - 1) * HEADER == 0 < nbytes
  {
    assert (UINT - 7 + HEADER - 1) % UINT == 0;
  }

  /** The argument of sbrk() as the signed int that it takes. */
  function SbrkArgument(nu: nat): int {
    var x := nu * HEADER % UINT;
    if x < 0x8000_0000 then x else x - UINT
  }

  /** morecore() asks for what it then puts into the header exactly when that is less than half the address space. */
  lemma {:induction false} AsksIff(nu: nat)
    ensures SbrkArgument(nu) == nu * HEADER <==> nu * HEADER < 0x8000_0000
  {
  }

  /** A request for 2^31 bytes makes morecore() give memory back, although it then claims as much as was asked for. */
  lemma {:induction false} OverrunRequest()
    ensures var nu := MoreUnits(UnitsFor(0x8000_0000)); nu * HEADER == 0x8000_0008 && SbrkArgument(nu) == -0x7fff_fff8
  {
    assert (0x8000_0000 + HEADER - 1) % UINT == 0x8000_0007;
    assert UnitsFor(0x8000_0000) == 0x1000_0001;
  }

  /** No room | a pointer behind the header | sbrk() was asked for another amount than the header says. */
  datatype Result = Null | Pointer(ap: int) | Overrun

  /** What morecore() asks for: the larger of nu and MIN_UNITS. */
  function MoreUnits(nu: nat): (n: nat)
    ensures n >= nu && n >= MIN_UNITS && (n == nu || n == MIN_UNITS)
  {
    if nu < MIN_UNITS then MIN_UNITS else nu
  }

  /** The last index of the ring that is below bp. */
  ghost function Rank(ring: seq<int>, bp: int): int {
    RankTo(ring, bp, |ring| - 2)
  }

  ghost function RankTo(ring: seq<int>, bp: int, k: int): int
    requires k < |ring|
    decreases k
  {
    if k <= 0 || ring[k] < bp then k else RankTo(ring, bp, k - 1)
  }

  lemma {:induction false} RankToIs(ring: seq<int>, base: int, bp: int, k: int)
    requires Ascending(ring, base) && bp > base && bp !in ring && 0 <= k < |ring| - 1
    requires k + 1 < |ring| - 1 ==> bp < ring[k + 1]
    ensures 0 <= RankTo(ring, bp, k) < |ring| - 1 && Between(ring, RankTo(ring, bp, k), bp)
    decreases k
  {
    if k > 0 && ring[k] >= bp {
      assert ring[k] in ring;
      RankToIs(ring, base, bp, k - 1);
    }
  }

  lemma {:induction false} RankIs(ring: seq<int>, base: int, bp: int)
    requires Ascending(ring, base) && bp > base && bp !in ring
    ensures Between(ring, Rank(ring, bp), bp)
    ensures forall k :: 0 <= k < |ring| - 1 ==> (k <= Rank(ring, bp) <==> ring[k] < bp)
  {
    RankToIs(ring, base, bp, |ring| - 2);
    hide Rank;
    var t := Rank(ring, bp);
    forall k | 0 <= k < |ring| - 1 ensures k <= t <==> ring[k] < bp {
      if k < t { assert ring[k] < ring[t]; } else if k > t + 1 { assert ring[t + 1] < ring[k]; }
    }
  }

  lemma {:induction false} RingIndex(ring: seq<int>, base: int, p: int)
    requires Ascending(ring, base) && p in ring
    ensures exists k :: 0 <= k < |ring| - 1 && ring[k] == p
  {
    var k :| 0 <= k < |ring| && ring[k] == p;
    if k == |ring| - 1 { assert ring[0] == p; }
  }

  lemma {:induction false} KeysSame(m: map<int, int>, m': map<int, int>)
    requires m'.Keys == m.Keys
    ensures forall u :: u in m' <==> u in m
  {
    assert forall u :: u in m' <==> u in m'.Keys;
  }

  lemma {:induction false} HeapRing(mem: Memory, ring: seq<int>, blk: map<int, int>, owner: map<int, int>, base: int)
    requires HeapOk(mem, ring, blk, owner, base, {})
    ensures RingOk(mem, ring, base) && Ascending(ring, base) && |ring| >= 2
  {
  }

  /** Headers of the ring are not in the program's units. */
  lemma {:induction false} NotUsed(mem: Memory, ring: seq<int>, blk: map<int, int>, owner: map<int, int>, base: int, x: int)
    requires HeapOk(mem, ring, blk, owner, base, {}) && x in ring
    ensures x !in Used(ring, owner)
  {
    hide Linked, Ascending;
    RingFirst(mem, ring, base);
    var k :| 0 <= k < |ring| && ring[k] == x;
    if 1 <= k < |ring| - 1 { OwnsItself(mem, blk, owner, base, x); } else { assert x == base; }
  }

  lemma {:induction false} FreedUntouched(mem: Memory, mem': Memory, used: map<int, int>, p: int, bp: int, n: nat)
    requires p in mem && bp in mem && p != bp && p !in used && n > 0 && mem' == JoinPrev(JoinNext(mem, p, bp), p, bp)
    ensures Untouched(mem, mem', used - Units(bp, n))
  {
    NextKeeps(mem, p, bp);
    hide JoinNext;
  }

  lemma {:induction false} BlockOf(mem: Memory, ring: seq<int>, blk: map<int, int>, owner: map<int, int>, base: int, b: int)
    requires HeapOk(mem, ring, blk, owner, base, {}) && b in blk
    ensures b > base && blk[b] > 0 && b in mem && mem[b].size == blk[b] && base in ring && |ring| >= 2
  {
    hide Linked, FreeOk;
    assert ring[0] == base;
  }

  lemma {:induction false} RingMem(mem: Memory, ring: seq<int>, blk: map<int, int>, owner: map<int, int>, base: int, t: int)
    requires HeapOk(mem, ring, blk, owner, base, {}) && 0 <= t < |ring| - 1
    ensures ring[t] in mem && mem[ring[t]].ptr in mem && ring[t + 1] in ring && ring[t] in ring && ring[t] >= base
  {
    hide BlocksOk, FreeOk;
    assert ring[0] in mem;
    assert t + 1 < |ring| - 1 ==> ring[t + 1] in mem;
  }

  /** The free blocks from lo to hi have less than n units. */
  ghost predicate SmallFrom(mem: Memory, ring: seq<int>, n: nat, lo: int, hi: int) {
    forall j :: 0 <= j < |ring| && lo <= j < hi ==> ring[j] in mem && mem[ring[j]].size < n
  }

  /** Walking from the f-th, malloc() has come to the k-th; all before it are too small. */
  ghost predicate Passed(mem: Memory, ring: seq<int>, n: nat, f: int, k: int) {
    if k > f then SmallFrom(mem, ring, n, f + 1, k) else SmallFrom(mem, ring, n, f + 1, |ring| - 1) && SmallFrom(mem, ring, n, 1, k)
  }

  lemma {:induction false} PassedStart(mem: Memory, ring: seq<int>, n: nat, f: int)
    ensures Passed(mem, ring, n, f, f + 1)
  {
  }

  lemma {:induction false} PassedMore(mem: Memory, ring: seq<int>, n: nat, f: int, k: int, next: int)
    requires Passed(mem, ring, n, f, k) && 0 <= f < |ring| - 1 && 1 <= k < |ring| && ring[k] in mem && mem[ring[k]].size < n && ring[k] != ring[f]
    requires next == (if k == |ring| - 1 then 1 else k + 1) && ring[0] == ring[|ring| - 1]
    ensures Passed(mem, ring, n, f, next)
  {
  }

  lemma {:induction false} RingEnds(ring: seq<int>, base: int)
    requires Ascending(ring, base)
    ensures |ring| >= 2 && ring[0] == base == ring[|ring| - 1]
  {
  }

  lemma {:induction false} FoundOne(mem: Memory, ring: seq<int>, blk: map<int, int>, owner: map<int, int>, base: int, k: int, n: nat)
    requires HeapOk(mem, ring, blk, owner, base, {}) && n > 0 && 1 <= k < |ring| && ring[k] in mem && mem[ring[k]].size >= n
    ensures k < |ring| - 1 && ring[k] in blk && blk[ring[k]] >= n && Fits(ring, blk, n)
  {
    hide Linked, Ascending;
    RingFirst(mem, ring, base);
    FitsAt(ring, blk, k, n);
  }

  lemma {:induction false} FoundNone(mem: Memory, ring: seq<int>, blk: map<int, int>, owner: map<int, int>, base: int, f: int, k: int, n: nat)
    requires HeapOk(mem, ring, blk, owner, base, {}) && 0 <= f < |ring| - 1 && 1 <= k < |ring| && ring[k] == ring[f] && ring[k] in mem && mem[ring[k]].size < n
    requires Passed(mem, ring, n, f, k)
    ensures !Fits(ring, blk, n)
  {
    hide Linked;
    assert k < |ring| - 1 ==> k == f;
    assert k == |ring| - 1 ==> f == 0;
    forall j | 1 <= j < |ring| - 1 && ring[j] in blk ensures blk[ring[j]] < n {
      assert ring[j] in mem && mem[ring[j]].size < n;
    }
  }

  lemma {:induction false} TakeWholeView(mem: Memory, ring: seq<int>, blk: map<int, int>, owner: map<int, int>, base: int, t: int) returns (ring': seq<int>)
    requires HeapOk(mem, ring, blk, owner, base, {}) && 1 <= t < |ring| - 1
    ensures ring[t - 1] in mem && ring[t] in mem && ring[t] in blk && blk[ring[t]] > 0
    ensures HeapOk(mem[ring[t - 1] := Header(mem[ring[t]].ptr, mem[ring[t - 1]].size)], ring', blk, owner, base, {})
    ensures ring[t - 1] in ring' && ring[t] !in ring' && ring[t - 1] >= base
    ensures var b := ring[t];
            && Used(ring', owner) == Used(ring, owner) + Block(b, blk[b]) && Units(b, blk[b]) <= Pool(ring, owner)
            && Pool(ring', owner) == Pool(ring, owner) - Units(b, blk[b])
  {
    hide HeapOk, Used, Pool, Block;
    TakeWhole(mem, ring, blk, owner, base, t);
    RingMem(mem, ring, blk, owner, base, t - 1);
    ring' := Removed(ring, t);
    FreeBlockOf(mem, ring, blk, owner, base, t);
    TookWhole(mem, ring, ring', blk, owner, base, t);
    InRemoved(ring, ring', base, t, ring[t]);
    assert ring'[t - 1] == ring[t - 1];
  }

  lemma {:induction false} FreeBlockOf(mem: Memory, ring: seq<int>, blk: map<int, int>, owner: map<int, int>, base: int, t: int)
    requires HeapOk(mem, ring, blk, owner, base, {}) && 1 <= t < |ring| - 1
    ensures BlocksOk(mem, blk, owner, base) && Ascending(ring, base) && ring[t] in blk && blk[ring[t]] > 0 && ring[t] in mem && mem[ring[t]].size == blk[ring[t]]
  {
  }

  lemma {:induction false} TakePartView(mem: Memory, ring: seq<int>, blk: map<int, int>, owner: map<int, int>, base: int, t: int, n: int, junk: int)
      returns (blk': map<int, int>, owner': map<int, int>)
    requires HeapOk(mem, ring, blk, owner, base, {}) && 1 <= t < |ring| - 1 && ring[t] in blk && 0 < n < blk[ring[t]]
    ensures var b := ring[t];
            && b in mem && mem[b].size == blk[b]
            && var q := b + (blk[b] - n);
            && HeapOk(mem[b := Header(mem[b].ptr, blk[b] - n)][q := Header(junk, n)], ring, blk', owner', base, {})
            && q in blk' && blk'[q] == n && q !in ring && owner'.Keys == owner.Keys
            && Used(ring, owner') == Used(ring, owner) + Block(q, n) && Units(q, n) <= Pool(ring, owner)
            && Pool(ring, owner') == Pool(ring, owner) - Units(q, n)
  {
    hide HeapOk, Used, Pool, Block, Handed, Units, BlocksOk;
    TakePart(mem, ring, blk, owner, base, t, n, junk);
    FreeBlockOf(mem, ring, blk, owner, base, t);
    var b := ring[t];
    var q := b + (blk[b] - n);
    blk', owner' := blk[b := blk[b] - n][q := n], Handed(owner, q, q + n, q);
    TookPart(mem, ring, blk, owner, base, b, n);
  }

  lemma {:induction false} GrownView(ring: seq<int>, owner: map<int, int>, hp: int, n: nat)
    requires hp !in ring && forall u :: u in owner ==> u < hp
    ensures Grown(owner, hp, n).Keys == owner.Keys + Units(hp, n)
    ensures Used(ring, Grown(owner, hp, n)) - Units(hp, n) == Used(ring, owner) && Pool(ring, Grown(owner, hp, n)) == Pool(ring, owner)
    ensures forall u :: u in Grown(owner, hp, n) ==> u < hp + n
    ensures forall u :: u in Used(ring, owner) ==> u < hp && u in Used(ring, Grown(owner, hp, n))
  {
  }

  lemma {:induction false} UntouchedTwice(mem: Memory, mem1: Memory, mem2: Memory, used: map<int, int>, used1: map<int, int>)
    requires Untouched(mem, mem1, used) && Untouched(mem1, mem2, used1) && used.Keys <= used1.Keys
    ensures Untouched(mem, mem2, used)
  {
    assert forall u :: u in used ==> u in used.Keys;
  }

  lemma {:induction false} FitsLess(ring: seq<int>, blk: map<int, int>, n: int, m: int)
    requires Fits(ring, blk, n) && m <= n
    ensures Fits(ring, blk, m)
  {
  }

  /** Units of the pool are not the program's. */
  lemma {:induction false} PoolNotUsed(ring: seq<int>, owner: map<int, int>, s: set<int>)
    requires s <= Pool(ring, owner)
    ensures s !! Used(ring, owner).Keys
  {
  }

  /** The loop of malloc() up to where it comes back to freep: the first free block behind freep of at least n units, and the one
      before it; k and f are the places of the block and of freep. */
  method Search(mem: Memory, freep: int, n: nat, ghost ring: seq<int>, ghost blk: map<int, int>, ghost owner: map<int, int>, ghost base: int)
      returns (found: bool, prevp: int, p: int, ghost k: int, ghost f: int)
    requires HeapOk(mem, ring, blk, owner, base, {}) && freep in ring && n > 0
    ensures found <==> Fits(ring, blk, n)
    ensures 0 <= f < |ring| - 1 && ring[f] == freep && (found ==> Passed(mem, ring, n, f, k))
    ensures found ==> 1 <= k < |ring| - 1 && ring[k] in blk && p == ring[k] && prevp == ring[k - 1] && blk[p] >= n
  {
    hide HeapOk, RingOk, Ascending, Passed, Fits;
    HeapRing(mem, ring, blk, owner, base);
    RingEnds(ring, base);
    ghost var top := |ring| - 1;
    f :| 0 <= f < top && ring[f] == freep by { RingIndex(ring, base, freep); }
    RingAt(mem, ring, base, f);
    PassedStart(mem, ring, n, f);
    prevp, k := freep, f + 1;
    p := mem[prevp].ptr;
    while true
      invariant 1 <= k <= top && p == ring[k] && prevp == ring[k - 1]
      invariant Passed(mem, ring, n, f, k)
      decreases if k > f then top - k + f else f - k
    {
      ghost var kk := if k == top then 0 else k;
      RingAt(mem, ring, base, kk);
      if mem[p].size >= n {
        FoundOne(mem, ring, blk, owner, base, k, n);
        return true, prevp, p, k, f;
      }
      if p == freep {
        FoundNone(mem, ring, blk, owner, base, f, k, n);
        return false, prevp, p, k, f;
      }
      PassedMore(mem, ring, n, f, k, kk + 1);
      prevp := p;
      p := mem[p].ptr;
      k := kk + 1;
    }
  }

  class Heap {
    const base: int
    var freep: int                 // 0 until the first malloc()
    var mem: Memory
    ghost var ring: seq<int>
    ghost var blk: map<int, int>
    ghost var owner: map<int, int>
    ghost var brk: int             // sbrk() gives addresses from here on

    constructor (b: int)
      requires b > 0
      ensures Valid() && base == b && freep == 0 && owner == map[]
    {
      base, freep, mem := b, 0, map[];
      ring, blk, owner, brk := [], map[], map[], b + 1;
    }

    ghost predicate Valid()
      reads this
    {
      && 0 < base < brk && (forall u :: u in owner ==> u < brk)
      && if freep == 0 then ring == [] && blk == map[] && owner == map[]
         else HeapOk(mem, ring, blk, owner, base, {}) && freep in ring
    }

    /** The search of free(): the place of bp in the order of addresses. */
    method Place(bp: int) returns (p: int, ghost t: int)
      requires Valid() && freep != 0 && bp > base && bp !in ring
      ensures Between(ring, t, bp) && p == ring[t]
    {
      hide BlocksOk, FreeOk;
      ghost var n := |ring| - 1;
      ghost var tt := Rank(ring, bp);
      RankIs(ring, base, bp);
      p := freep;
      ghost var k :| 0 <= k < n && ring[k] == p by { RingIndex(ring, base, freep); }
      while !(bp > p && bp < mem[p].ptr)
        invariant 0 <= k < n && ring[k] == p
        decreases if k <= tt then tt - k else n - k + tt
      {
        assert p in mem && mem[p].ptr == ring[k + 1];
        if p >= mem[p].ptr && (bp > p || bp < mem[p].ptr) { break; }
        p := mem[p].ptr;
        k := if k + 1 < n then k + 1 else 0;
      }
      t := k;
    }

    /** free(): the units of the block go back to the pool; no other unit of the program is written. */
    method Free(ap: int)
      requires Valid() && freep != 0 && ap - 1 in blk && ap - 1 !in ring
      modifies this
      ensures Valid() && freep != 0 && brk == old(brk) && owner.Keys == old(owner.Keys)
      ensures Used(ring, owner) == old(Used(ring, owner)) - Units(ap - 1, old(blk)[ap - 1])
      ensures Pool(ring, owner) == old(Pool(ring, owner)) + Units(ap - 1, old(blk)[ap - 1])
      ensures Untouched(old(mem), mem, Used(ring, owner)) && Fits(ring, blk, old(blk)[ap - 1])
      ensures exists t :: Between(old(ring), t, ap - 1) && freep == old(ring)[t]
    {
      hide HeapOk, Used, Pool, Fits, Untouched;
      var bp := ap - 1;
      ghost var n := blk[bp];
      BlockOf(mem, ring, blk, owner, base, bp);
      var p;
      ghost var t;
      p, t := Place(bp);
      ghost var ring', blk', owner' := Freed(mem, ring, blk, owner, base, t, bp);
      NotUsed(mem, ring, blk, owner, base, p);
      RingMem(mem, ring, blk, owner, base, t);
      ghost var was := mem;
      if bp + mem[bp].size == mem[p].ptr {
        mem := mem[bp := Header(mem[mem[p].ptr].ptr, mem[bp].size + mem[mem[p].ptr].size)];
      } else {
        mem := mem[bp := Header(mem[p].ptr, mem[bp].size)];
      }
      if p + mem[p].size == bp {
        mem := mem[p := Header(mem[bp].ptr, mem[p].size + mem[bp].size)];
      } else {
        mem := mem[p := Header(bp, mem[p].size)];
      }
      FreedUntouched(was, mem, Used(ring, owner), p, bp, n);
      KeysSame(owner, owner');
      freep := p;
      ring, blk, owner := ring', blk', owner';
    }

    /** malloc() takes n units from the k-th free block p: all of it, or its end. */
    method Take(n: nat, prevp: int, p: int, ghost k: int) returns (q: int)
      requires Valid() && freep != 0 && n > 0 && 1 <= k < |ring| - 1 && ring[k] in blk && p == ring[k] && prevp == ring[k - 1] && blk[p] >= n
      modifies this
      ensures Valid() && freep != 0 && brk == old(brk) && owner.Keys == old(owner.Keys)
      ensures q in blk && blk[q] == n && q !in ring && Units(q, n) <= old(Pool(ring, owner))
      ensures q + n == p + old(blk)[p] && freep == prevp
      ensures Used(ring, owner) == old(Used(ring, owner)) + Block(q, n)
      ensures Pool(ring, owner) == old(Pool(ring, owner)) - Units(q, n)
      ensures Untouched(old(mem), mem, old(Used(ring, owner)))
    {
      hide HeapOk, Used, Pool, Block, Units, BlocksOk, Ascending;
      FreeBlockOf(mem, ring, blk, owner, base, k);
      RingMem(mem, ring, blk, owner, base, k - 1);
      NotUsed(mem, ring, blk, owner, base, p);
      NotUsed(mem, ring, blk, owner, base, prevp);
      if mem[p].size == n {
        ghost var ring' := TakeWholeView(mem, ring, blk, owner, base, k);
        mem := mem[prevp := Header(mem[p].ptr, mem[prevp].size)];
        ring := ring';
        q := p;
      } else {
        q := p + (mem[p].size - n);
        var junk := if q in mem then mem[q].ptr else 0;
        ghost var blk', owner' := TakePartView(mem, ring, blk, owner, base, k, n, junk);
        PoolNotUsed(ring, owner, Units(q, n));
        KeysSame(owner, owner');
        mem := mem[p := Header(mem[p].ptr, mem[p].size - n)][q := Header(junk, n)];
        blk, owner := blk', owner';
      }
      freep := prevp;
    }

    /** morecore(); `grant` is the address that sbrk() gives, or -1. */
    method Morecore(nu: nat, grant: int) returns (r: Result)
      requires Valid() && freep != 0 && nu > 0 && (grant == -1 || grant >= brk)
      modifies this
      ensures r == Null <==> grant == -1
      ensures r == Overrun <==> grant != -1 && MoreUnits(nu) * HEADER >= 0x8000_0000
      ensures !r.Pointer? ==> unchanged(this)
      ensures r.Pointer? ==> Valid() && freep != 0 && owner.Keys == old(owner.Keys) + Units(grant, MoreUnits(nu)) && Fits(ring, blk, nu)
      ensures r.Pointer? ==> Used(ring, owner) == old(Used(ring, owner)) && Pool(ring, owner) == old(Pool(ring, owner)) + Units(grant, MoreUnits(nu))
      ensures r.Pointer? ==> Untouched(old(mem), mem, Used(ring, owner))
    {
      hide HeapOk, Used, Pool, Fits, Grown;
      var n := if nu < MIN_UNITS then MIN_UNITS else nu;
      if grant == -1 { return Null; }
      if SbrkArgument(n) != n * HEADER { return Overrun; }
      var junk := if grant in mem then mem[grant].ptr else 0;
      ghost var was, used := mem, Used(ring, owner);
      GrowBlocks(mem, ring, blk, owner, base, grant, n, junk);
      GrownView(ring, owner, grant, n);
      mem := mem[grant := Header(junk, n)];
      assert Untouched(was, mem, used);
      blk, owner := blk[grant := n], Grown(owner, grant, n);
      brk := grant + n;
      ghost var mid := mem;
      Free(grant + 1);
      UntouchedTwice(was, mid, mem, used, Used(ring, owner));
      FitsLess(ring, blk, n, nu);
      r := Pointer(freep);
    }

    /** malloc(): it calls morecore() if and only if no free block is large enough, and then only once.  With Overrun the heap is
        as it was when sbrk() is asked for less than the header is to say. */
    method Malloc(nbytes: nat, grant: int) returns (r: Result, more: bool)
      requires Valid() && nbytes < UINT && (grant == -1 || grant >= brk)
      modifies this
      ensures more <==> !Fits(old(ring), old(blk), UnitsFor(nbytes))
      ensures r == Null <==> more && grant == -1
      ensures r == Overrun <==> more && grant != -1 && MoreUnits(UnitsFor(nbytes)) * HEADER >= 0x8000_0000
      ensures Valid() && Untouched(old(mem), mem, old(Used(ring, owner)))
      ensures !r.Pointer? ==> Used(ring, owner) == old(Used(ring, owner)) && Pool(ring, owner) == old(Pool(ring, owner)) && owner == old(owner)
      ensures r.Pointer? ==>
        var q, n, extra := r.ap - 1, UnitsFor(nbytes), if more then Units(grant, MoreUnits(UnitsFor(nbytes))) else {};
        && q in blk && blk[q] == n && q !in ring && owner.Keys == old(owner.Keys) + extra
        && Units(q, n) <= old(Pool(ring, owner)) + extra && Units(q, n) !! old(Used(ring, owner)).Keys
        && Used(ring, owner) == old(Used(ring, owner)) + Block(q, n)
        && Pool(ring, owner) == old(Pool(ring, owner)) + extra - Units(q, n)
    {
      hide HeapOk, Used, Pool, Fits, Block;
      var nunits := UnitsFor(nbytes);
      ghost var used := Used(ring, owner);
      if freep == 0 { Begin(); }
      ghost var mem0 := mem;
      var found, prevp, p;
      ghost var k, f;
      found, prevp, p, k, f := Search(mem, freep, nunits, ring, blk, owner, base);
      more := !found;
      if !found {
        r := Morecore(nunits, grant);
        if !r.Pointer? { return; }
        found, prevp, p, k, f := Search(mem, freep, nunits, ring, blk, owner, base);
      }
      ghost var mem1 := mem;
      PoolNotUsed(ring, owner, Pool(ring, owner));
      var q := Take(nunits, prevp, p, k);
      UntouchedTwice(mem0, mem1, mem, used, used);
      r := Pointer(q + 1);
    }

    /** The first call of malloc(): a ring of nothing but `base`. */
    method Begin()
      requires Valid() && freep == 0
      modifies this
      ensures Valid() && freep == base && brk == old(brk) && ring == [base, base] && blk == map[] && owner == map[]
      ensures Used(ring, owner) == old(Used(ring, owner)) == map[] && Pool(ring, owner) == old(Pool(ring, owner)) == {}
      ensures forall n :: !Fits(ring, blk, n) && !Fits(old(ring), old(blk), n)
    {
      freep := base;
      mem := mem[base := Header(base, 0)];
      ring := [base, base];
    }
  }
}
