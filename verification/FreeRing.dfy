/** The heap of umalloc.c as data: blocks of header-sized units, and the ring of
    free blocks.  Addresses count units.  Class Heap in module Malloc changes it. */
module FreeRing {

  /** union header: the next free block and the size of this one. */
  datatype Header = Header(ptr: int, size: int)

  type Memory = map<int, Header>

  // ---------------------------------------------------------------- blocks

  /** `blk` has the size of every block, free or allocated, and `owner` the block of every unit.  So blocks are disjoint. */
  ghost predicate BlocksOk(mem: Memory, blk: map<int, int>, owner: map<int, int>, base: int) {
    Sized(mem, blk, base) && Covering(blk, owner) && Within(blk, owner)
  }

  ghost predicate Sized(mem: Memory, blk: map<int, int>, base: int) {
    forall b :: b in blk ==> base < b && blk[b] > 0 && b in mem && mem[b].size == blk[b]
  }

  ghost predicate Covering(blk: map<int, int>, owner: map<int, int>) {
    forall b, u :: b in blk && b <= u < b + blk[b] ==> u in owner && owner[u] == b
  }

  ghost predicate Within(blk: map<int, int>, owner: map<int, int>) {
    forall u :: u in owner ==> owner[u] in blk && owner[u] <= u < owner[u] + blk[owner[u]]
  }

  lemma {:induction false} Disjoint(mem: Memory, blk: map<int, int>, owner: map<int, int>, base: int, a: int, b: int)
    requires BlocksOk(mem, blk, owner, base) && a in blk && b in blk && a < b
    ensures a + blk[a] <= b
  {
    var o := owner[b];
    assert o == b;
    assert b < a + blk[a] ==> o == a;
  }

  /** owner after the units from lo to hi went to block b. */
  ghost function Handed(owner: map<int, int>, lo: int, hi: int, b: int): map<int, int> {
    map u | u in owner :: if lo <= u < hi then b else owner[u]
  }

  /** Block b of size s becomes b and b + (s - n). */
  lemma {:induction false} SplitBlocks(mem: Memory, mem': Memory, blk: map<int, int>, owner: map<int, int>, base: int, b: int, n: int)
    requires BlocksOk(mem, blk, owner, base) && b in blk && 0 < n < blk[b]
    requires b in mem' && mem'[b].size == blk[b] - n && b + (blk[b] - n) in mem' && mem'[b + (blk[b] - n)].size == n
    requires forall a :: a in mem && a != b && a != b + (blk[b] - n) ==> a in mem' && mem'[a].size == mem[a].size
    ensures var q := b + (blk[b] - n);
            && q !in blk && BlocksOk(mem', blk[b := blk[b] - n][q := n], Handed(owner, q, q + n, q), base)
  {
    hide Covering, Within, Handed, Sized;
    var q := b + (blk[b] - n);
    UnitOf(blk, owner, b, q);
    NoBlockAt(blk, owner, base, mem, q);
    SplitUnits(blk, owner, b, n);
    SplitSized(mem, mem', blk, base, b, q, n);
  }

  lemma {:induction false} SplitUnits(blk: map<int, int>, owner: map<int, int>, b: int, n: int)
    requires Covering(blk, owner) && Within(blk, owner) && b in blk && 0 < n < blk[b] && b + (blk[b] - n) !in blk
    ensures var q := b + (blk[b] - n);
            var blk', owner' := blk[b := blk[b] - n][q := n], Handed(owner, q, q + n, q);
            Covering(blk', owner') && Within(blk', owner')
  {
    hide Covering, Within, Handed, IsSplit;
    var q := b + (blk[b] - n);
    var blk', owner' := blk[b := blk[b] - n][q := n], Handed(owner, q, q + n, q);
    HandedSplit(blk, owner, b, n);
    SplitCovering(blk, owner, blk', owner', b, q, n);
    SplitWithin(blk, owner, blk', owner', b, q, n);
  }

  lemma {:induction false} NoBlockAt(blk: map<int, int>, owner: map<int, int>, base: int, mem: Memory, q: int)
    requires Sized(mem, blk, base) && Covering(blk, owner) && q in owner && owner[q] != q
    ensures q !in blk
  {
    if q in blk { UnitOf(blk, owner, q, q); }
  }

  lemma {:induction false} HandedSplit(blk: map<int, int>, owner: map<int, int>, b: int, n: int)
    requires b in blk && 0 < n < blk[b] && b + (blk[b] - n) !in blk
    ensures var q := b + (blk[b] - n); IsSplit(blk, owner, blk[b := blk[b] - n][q := n], Handed(owner, q, q + n, q), b, q, n)
  {
  }

  lemma {:induction false} SplitSized(mem: Memory, mem': Memory, blk: map<int, int>, base: int, b: int, q: int, n: int)
    requires Sized(mem, blk, base) && b in blk && b < q && n > 0
    requires b in mem' && mem'[b].size == q - b && q in mem' && mem'[q].size == n
    requires forall a :: a in mem && a != b && a != q ==> a in mem' && mem'[a].size == mem[a].size
    ensures Sized(mem', blk[b := q - b][q := n], base)
  {
  }

  lemma {:induction false} UnitOf(blk: map<int, int>, owner: map<int, int>, b: int, u: int)
    requires Covering(blk, owner) && b in blk && b <= u < b + blk[b]
    ensures u in owner && owner[u] == b
  {
  }

  lemma {:induction false} BlockOfUnit(blk: map<int, int>, owner: map<int, int>, u: int)
    requires Within(blk, owner) && u in owner
    ensures owner[u] in blk && owner[u] <= u < owner[u] + blk[owner[u]]
  {
  }

  /** blk' and owner' are blk and owner with the units from q on, n of them and the last of block b, as a block of their own. */
  ghost predicate IsSplit(blk: map<int, int>, owner: map<int, int>, blk': map<int, int>, owner': map<int, int>, b: int, q: int, n: int) {
    && b in blk && 0 < n < blk[b] && q + n == b + blk[b] && q !in blk
    && blk' == blk[b := q - b][q := n]
    && owner'.Keys == owner.Keys && forall u :: u in owner ==> owner'[u] == if q <= u < q + n then q else owner[u]
  }

  lemma {:induction false} SplitCovering(blk: map<int, int>, owner: map<int, int>, blk': map<int, int>, owner': map<int, int>, b: int, q: int, n: int)
    requires Covering(blk, owner) && IsSplit(blk, owner, blk', owner', b, q, n)
    ensures Covering(blk', owner')
  {
    forall c, u | c in blk' && c <= u < c + blk'[c] ensures u in owner' && owner'[u] == c {
      var o := if c == q then b else c;
      assert o in blk && o <= u < o + blk[o];
      UnitOf(blk, owner, o, u);
      if q <= u < q + n { UnitOf(blk, owner, b, u); }
    }
  }

  lemma {:induction false} SplitWithin(blk: map<int, int>, owner: map<int, int>, blk': map<int, int>, owner': map<int, int>, b: int, q: int, n: int)
    requires Within(blk, owner) && IsSplit(blk, owner, blk', owner', b, q, n)
    ensures Within(blk', owner')
  {
    forall u | u in owner' ensures owner'[u] in blk' && owner'[u] <= u < owner'[u] + blk'[owner'[u]] {
      assert u in owner.Keys;
      BlockOfUnit(blk, owner, u);
    }
  }

  /** Adjacent blocks b and c become one. */
  lemma {:induction false} JoinBlocks(mem: Memory, mem': Memory, blk: map<int, int>, owner: map<int, int>, base: int, b: int, c: int)
    requires BlocksOk(mem, blk, owner, base) && b in blk && c in blk && b + blk[b] == c
    requires b in mem' && mem'[b].size == blk[b] + blk[c]
    requires forall a :: a in mem && a != b ==> a in mem' && mem'[a].size == mem[a].size
    ensures BlocksOk(mem', (blk - {c})[b := blk[b] + blk[c]], Handed(owner, c, c + blk[c], b), base)
  {
    JoinUnits(blk, owner, b, c);
    hide Covering, Within, Handed;
  }

  lemma {:induction false} JoinUnits(blk: map<int, int>, owner: map<int, int>, b: int, c: int)
    requires Covering(blk, owner) && Within(blk, owner) && b in blk && c in blk && b + blk[b] == c && blk[b] > 0 && blk[c] > 0
    ensures var blk', owner' := (blk - {c})[b := blk[b] + blk[c]], Handed(owner, c, c + blk[c], b);
            Covering(blk', owner') && Within(blk', owner')
  {
    var blk', owner' := (blk - {c})[b := blk[b] + blk[c]], Handed(owner, c, c + blk[c], b);
    assert Covering(blk', owner') by {
      forall a, u | a in blk' && a <= u < a + blk'[a] ensures u in owner' && owner'[u] == a {
        hide Covering, Within;
        UnitOf(blk, owner, if a == b && u >= c then c else a, u);
        if c <= u < c + blk[c] { UnitOf(blk, owner, c, u); }
      }
    }
    assert Within(blk', owner') by {
      forall u | u in owner' ensures owner'[u] in blk' && owner'[u] <= u < owner'[u] + blk'[owner'[u]] {
        hide Covering, Within;
        BlockOfUnit(blk, owner, u);
        if c <= u < c + blk[c] { UnitOf(blk, owner, c, u); }
      }
    }
  }

  // ---------------------------------------------------------------- ring

  /** A closed walk: the last element is the first again.  The others ascend. */
  ghost predicate Ascending(ring: seq<int>, base: int) {
    && |ring| >= 2 && ring[0] == base && ring[|ring| - 1] == base
    && forall j, k :: 0 <= j < k < |ring| - 1 ==> ring[j] < ring[k]
  }

  ghost predicate SameLink(mem: Memory, mem': Memory, a: int) { a in mem ==> a in mem' && mem'[a].ptr == mem[a].ptr }

  ghost predicate Linked(mem: Memory, ring: seq<int>) {
    forall k :: 0 <= k < |ring| - 1 ==> ring[k] in mem && mem[ring[k]].ptr == ring[k + 1]
  }

  /** `base` and the free blocks in the order of their addresses, and back to `base`. */
  ghost predicate RingOk(mem: Memory, ring: seq<int>, base: int) {
    Ascending(ring, base) && Linked(mem, ring) && base in mem && mem[base].size == 0
  }

  /** Free blocks are blocks; no two of them are adjacent, except that k and its successor may be, for k in `ex`. */
  ghost predicate FreeOk(ring: seq<int>, blk: map<int, int>, ex: set<int>) {
    && (forall k :: 1 <= k < |ring| - 1 ==> ring[k] in blk)
    && (forall k :: 1 <= k < |ring| - 2 && k !in ex ==> ring[k] + blk[ring[k]] != ring[k + 1])
  }

  ghost predicate HeapOk(mem: Memory, ring: seq<int>, blk: map<int, int>, owner: map<int, int>, base: int, ex: set<int>) {
    BlocksOk(mem, blk, owner, base) && RingOk(mem, ring, base) && FreeOk(ring, blk, ex)
  }

  lemma {:induction false} BlocksSame(mem: Memory, mem': Memory, blk: map<int, int>, owner: map<int, int>, base: int)
    requires BlocksOk(mem, blk, owner, base) && forall b :: b in blk ==> b in mem' && mem'[b].size == mem[b].size
    ensures BlocksOk(mem', blk, owner, base)
  {
  }

  // ---------------------------------------------------------------- insertion

  /** r is ring with b after the t-th. */
  ghost predicate IsInserted(ring: seq<int>, r: seq<int>, t: int, b: int) {
    && 0 <= t < |ring| - 1 && |r| == |ring| + 1
    && (forall k :: 0 <= k <= t ==> r[k] == ring[k]) && r[t + 1] == b && (forall k :: t + 1 < k < |r| ==> r[k] == ring[k - 1])
  }

  ghost function Inserted(ring: seq<int>, t: int, b: int): (r: seq<int>)
    requires 0 <= t < |ring| - 1
    ensures IsInserted(ring, r, t, b)
  {
    ring[..t + 1] + [b] + ring[t + 1..]
  }

  lemma {:induction false} InsertedAscending(ring: seq<int>, r: seq<int>, base: int, t: int, b: int)
    requires Ascending(ring, base) && IsInserted(ring, r, t, b) && ring[t] < b && (t + 1 < |ring| - 1 ==> b < ring[t + 1])
    ensures Ascending(r, base)
  {
    forall k | 0 <= k < |r| - 2 ensures r[k] < r[k + 1] {
      if k > t + 1 { assert r[k] == ring[k - 1] && r[k + 1] == ring[k]; }
    }
    forall j, k | 0 <= j < k < |r| - 1 ensures r[j] < r[k] {
      StepsAscend(r, j, k);
    }
  }

  lemma {:induction false} StepsAscend(r: seq<int>, j: int, k: int)
    requires 0 <= j < k < |r| - 1 && forall i :: 0 <= i < |r| - 2 ==> r[i] < r[i + 1]
    ensures r[j] < r[k]
    decreases k - j
  {
    assert r[k - 1] < r[k - 1 + 1];
    if j < k - 1 { StepsAscend(r, j, k - 1); }
  }

  lemma {:induction false} InsertedLinked(mem: Memory, ring: seq<int>, mem': Memory, r: seq<int>, t: int, b: int)
    requires Linked(mem, ring) && IsInserted(ring, r, t, b)
    requires b in mem' && mem'[b].ptr == ring[t + 1] && ring[t] in mem' && mem'[ring[t]].ptr == b
    requires forall k :: 0 <= k < |ring| - 1 && k != t ==> ring[k] in mem' && mem'[ring[k]].ptr == mem[ring[k]].ptr
    ensures Linked(mem', r)
  {
    forall k | 0 <= k < |r| - 1 ensures r[k] in mem' && mem'[r[k]].ptr == r[k + 1] {
      if k > t + 1 { assert r[k] == ring[k - 1] && r[k + 1] == ring[k]; } else if k < t { assert r[k] == ring[k] && r[k + 1] == ring[k + 1]; }
    }
  }

  lemma {:induction false} InsertedFree(ring: seq<int>, r: seq<int>, blk: map<int, int>, t: int, b: int)
    requires FreeOk(ring, blk, {}) && IsInserted(ring, r, t, b) && b in blk
    ensures FreeOk(r, blk, {t, t + 1})
  {
    forall k | 1 <= k < |r| - 1 ensures r[k] in blk {
      if k > t + 1 { assert r[k] == ring[k - 1]; }
    }
    forall k | 1 <= k < |r| - 2 && k !in {t, t + 1} ensures r[k] + blk[r[k]] != r[k + 1] {
      if k > t + 1 { assert r[k] == ring[k - 1] && r[k + 1] == ring[k]; }
    }
  }

  /** free() links block b in after the t-th. */
  lemma {:induction false} LinkIn(mem: Memory, ring: seq<int>, blk: map<int, int>, owner: map<int, int>, base: int, t: int, b: int)
    requires HeapOk(mem, ring, blk, owner, base, {}) && 0 <= t < |ring| - 1 && b in blk
    requires ring[t] < b && (t + 1 < |ring| - 1 ==> b < ring[t + 1])
    ensures ring[t] in mem && b in mem
    ensures var mem' := mem[b := Header(mem[ring[t]].ptr, mem[b].size)][ring[t] := Header(b, mem[ring[t]].size)];
            HeapOk(mem', Inserted(ring, t, b), blk, owner, base, {t, t + 1})
  {
    hide IsInserted, FreeOk;
    var r := Inserted(ring, t, b);
    var mem' := mem[b := Header(mem[ring[t]].ptr, mem[b].size)][ring[t] := Header(b, mem[ring[t]].size)];
    NotInRing(ring, base, t, b);
    BlocksSame(mem, mem', blk, owner, base);
    InsertedAscending(ring, r, base, t, b);
    InsertedLinked(mem, ring, mem', r, t, b);
    InsertedFree(ring, r, blk, t, b);
  }

  lemma {:induction false} NotInRing(ring: seq<int>, base: int, t: int, b: int)
    requires Ascending(ring, base) && 0 <= t < |ring| - 1 && ring[t] < b && (t + 1 < |ring| - 1 ==> b < ring[t + 1])
    ensures forall k :: 0 <= k < |ring| ==> ring[k] != b
  {
    forall k | 0 <= k < |ring| - 1 ensures ring[k] != b {
      if k < t { assert ring[k] < ring[t]; } else if k > t + 1 { assert ring[t + 1] < ring[k]; }
    }
  }

  // ---------------------------------------------------------------- removal

  /** r is ring without its t-th. */
  ghost predicate IsRemoved(ring: seq<int>, r: seq<int>, t: int) {
    && 0 < t < |ring| - 1 && |r| == |ring| - 1
    && (forall k :: 0 <= k < t ==> r[k] == ring[k]) && (forall k :: t <= k < |r| ==> r[k] == ring[k + 1])
  }

  ghost function Removed(ring: seq<int>, t: int): (r: seq<int>)
    requires 0 < t < |ring| - 1
    ensures IsRemoved(ring, r, t)
  {
    ring[..t] + ring[t + 1..]
  }

  lemma {:induction false} RemovedAscending(ring: seq<int>, r: seq<int>, base: int, t: int)
    requires Ascending(ring, base) && IsRemoved(ring, r, t)
    ensures Ascending(r, base)
  {
    forall j, k | 0 <= j < k < |r| - 1 ensures r[j] < r[k] {
      assert r[j] == (if j < t then ring[j] else ring[j + 1]);
      assert r[k] == (if k < t then ring[k] else ring[k + 1]);
    }
  }

  lemma {:induction false} RemovedLinked(mem: Memory, ring: seq<int>, mem': Memory, r: seq<int>, t: int)
    requires Linked(mem, ring) && IsRemoved(ring, r, t) && ring[t - 1] in mem' && mem'[ring[t - 1]].ptr == ring[t + 1]
    requires forall k :: 0 <= k < |ring| - 1 && k != t - 1 && k != t ==> SameLink(mem, mem', ring[k])
    ensures Linked(mem', r)
  {
    forall k | 0 <= k < |r| - 1 ensures r[k] in mem' && mem'[r[k]].ptr == r[k + 1] {
      if k >= t { assert r[k] == ring[k + 1] && r[k + 1] == ring[k + 2]; } else if k < t - 1 { assert r[k + 1] == ring[k + 1]; }
    }
  }

  lemma {:induction false} JoinedFree(ring: seq<int>, r: seq<int>, blk: map<int, int>, blk': map<int, int>, base: int, ex: set<int>, t: int)
    requires Ascending(ring, base) && FreeOk(ring, blk, ex) && IsRemoved(ring, r, t + 1) && 1 <= t && ring[t] + blk[ring[t]] == ring[t + 1] && t + 1 !in ex
    requires blk' == (blk - {ring[t + 1]})[ring[t] := blk[ring[t]] + blk[ring[t + 1]]] && forall k :: k in ex ==> k <= t
    ensures FreeOk(r, blk', ex - {t})
  {
    forall k | 1 <= k < |ring| - 1 && k != t + 1 ensures ring[k] in blk' && ring[k] != ring[t + 1] {
    }
    forall k | 1 <= k < |r| - 1 ensures r[k] in blk' {
      if k > t { assert r[k] == ring[k + 1]; }
    }
    forall k | 1 <= k < |r| - 2 && k !in ex - {t} ensures r[k] + blk'[r[k]] != r[k + 1] {
      if k < t {
        assert ring[k] + blk[ring[k]] != ring[k + 1] && r[k + 1] == ring[k + 1] && ring[k] != ring[t];
      } else {
        assert ring[k + 1] + blk[ring[k + 1]] != ring[k + 2] && r[k + 1] == ring[k + 2];
      }
    }
  }

  lemma {:induction false} FreeAt(ring: seq<int>, blk: map<int, int>, ex: set<int>, k: int)
    requires FreeOk(ring, blk, ex) && 1 <= k < |ring| - 1
    ensures ring[k] in blk
  {
  }

  lemma {:induction false} BlockAt(mem: Memory, blk: map<int, int>, owner: map<int, int>, base: int, b: int)
    requires BlocksOk(mem, blk, owner, base) && b in blk
    ensures b > base && blk[b] > 0 && b in mem && mem[b].size == blk[b]
  {
  }

  lemma {:induction false} LinkedAt(mem: Memory, ring: seq<int>, k: int)
    requires Linked(mem, ring) && 0 <= k < |ring| - 1
    ensures ring[k] in mem && mem[ring[k]].ptr == ring[k + 1]
  {
  }

  lemma {:induction false} DistinctAt(ring: seq<int>, base: int, j: int)
    requires Ascending(ring, base) && 0 <= j < |ring| - 1
    ensures forall k :: 0 <= k < |ring| - 1 && k != j ==> ring[k] != ring[j]
    ensures j > 0 ==> ring[j] != base
  {
  }

  lemma {:induction false} CoalesceRing(mem: Memory, ring: seq<int>, mem': Memory, base: int, t: int)
    requires RingOk(mem, ring, base) && 1 <= t < |ring| - 2 && ring[t] in mem' && mem'[ring[t]].ptr == ring[t + 2]
    requires forall a :: a in mem && a != ring[t] ==> a in mem' && mem'[a] == mem[a]
    ensures RingOk(mem', Removed(ring, t + 1), base)
  {
    hide IsRemoved, Ascending, Linked;
    DistinctAt(ring, base, t);
    var r := Removed(ring, t + 1);
    RemovedAscending(ring, r, base, t + 1);
    RemovedLinked(mem, ring, mem', r, t + 1);
  }

  /** The t-th free block takes in the next one, which is adjacent to it. */
  lemma {:induction false} Coalesce(mem: Memory, ring: seq<int>, blk: map<int, int>, owner: map<int, int>, base: int, ex: set<int>, t: int)
    requires HeapOk(mem, ring, blk, owner, base, ex) && 1 <= t < |ring| - 2 && ring[t] in blk && ring[t] + blk[ring[t]] == ring[t + 1] && t + 1 !in ex
    requires forall k :: k in ex ==> k <= t
    ensures ring[t] in mem && ring[t + 1] in mem && ring[t + 1] in blk
    ensures var b, c := ring[t], ring[t + 1];
            HeapOk(mem[b := Header(mem[c].ptr, mem[b].size + mem[c].size)], Removed(ring, t + 1), (blk - {c})[b := blk[b] + blk[c]],
                   Handed(owner, c, c + blk[c], b), base, ex - {t})
  {
    hide FreeOk, Handed, IsRemoved, RingOk, BlocksOk;
    var b, c := ring[t], ring[t + 1];
    FreeAt(ring, blk, ex, t + 1);
    BlockAt(mem, blk, owner, base, b);
    BlockAt(mem, blk, owner, base, c);
    RingAt(mem, ring, base, t + 1);
    var mem' := mem[b := Header(mem[c].ptr, mem[b].size + mem[c].size)];
    CoalesceRing(mem, ring, mem', base, t);
    JoinedFree(ring, Removed(ring, t + 1), blk, (blk - {c})[b := blk[b] + blk[c]], base, ex, t);
    JoinBlocks(mem, mem', blk, owner, base, b, c);
  }

  lemma {:induction false} RingAt(mem: Memory, ring: seq<int>, base: int, k: int)
    requires RingOk(mem, ring, base) && 0 <= k < |ring| - 1
    ensures ring[k] in mem && mem[ring[k]].ptr == ring[k + 1] && Ascending(ring, base)
  {
  }

  // ---------------------------------------------------------------- allocation

  /** malloc() takes all of the t-th free block. */
  lemma {:induction false} TakeWhole(mem: Memory, ring: seq<int>, blk: map<int, int>, owner: map<int, int>, base: int, t: int)
    requires HeapOk(mem, ring, blk, owner, base, {}) && 1 <= t < |ring| - 1
    ensures ring[t - 1] in mem && ring[t] in mem
    ensures HeapOk(mem[ring[t - 1] := Header(mem[ring[t]].ptr, mem[ring[t - 1]].size)], Removed(ring, t), blk, owner, base, {})
  {
    hide FreeOk, IsRemoved, Ascending, BlocksOk, Linked;
    RingAt(mem, ring, base, t - 1);
    RingAt(mem, ring, base, t);
    var mem', r := mem[ring[t - 1] := Header(mem[ring[t]].ptr, mem[ring[t - 1]].size)], Removed(ring, t);
    DistinctAt(ring, base, t - 1);
    RemovedAscending(ring, r, base, t);
    RemovedLinked(mem, ring, mem', r, t);
    BlocksIn(mem, blk, owner, base);
    BlocksSame(mem, mem', blk, owner, base);
    RemovedFree(mem, ring, r, blk, owner, base, t);
  }

  lemma {:induction false} BlocksIn(mem: Memory, blk: map<int, int>, owner: map<int, int>, base: int)
    requires BlocksOk(mem, blk, owner, base)
    ensures forall b :: b in blk ==> b in mem
  {
  }

  lemma {:induction false} RemovedFree(mem: Memory, ring: seq<int>, r: seq<int>, blk: map<int, int>, owner: map<int, int>, base: int, t: int)
    requires BlocksOk(mem, blk, owner, base) && Ascending(ring, base) && FreeOk(ring, blk, {}) && IsRemoved(ring, r, t)
    ensures FreeOk(r, blk, {})
  {
    hide BlocksOk;
    forall k | 1 <= k < |r| - 1 ensures r[k] in blk {
      if k >= t { assert r[k] == ring[k + 1]; }
    }
    forall k | 1 <= k < |r| - 2 ensures r[k] + blk[r[k]] != r[k + 1] {
      if k == t - 1 {
        assert r[k + 1] == ring[t + 1];
        Disjoint(mem, blk, owner, base, ring[k], ring[t]);
      } else if k >= t {
        assert r[k] == ring[k + 1] && r[k + 1] == ring[k + 2];
      }
    }
  }

  /** malloc() takes the last n units of the t-th free block. */
  lemma {:induction false} TakePart(mem: Memory, ring: seq<int>, blk: map<int, int>, owner: map<int, int>, base: int, t: int, n: int, junk: int)
    requires HeapOk(mem, ring, blk, owner, base, {}) && 1 <= t < |ring| - 1 && ring[t] in blk && 0 < n < blk[ring[t]]
    ensures var b := ring[t];
            && b in mem && mem[b].size == blk[b]
            && var q := b + (blk[b] - n);
            && var mem' := mem[b := Header(mem[b].ptr, blk[b] - n)][q := Header(junk, n)];
            && q !in blk && q !in ring && HeapOk(mem', ring, blk[b := blk[b] - n][q := n], Handed(owner, q, q + n, q), base, {})
  {
    hide FreeOk, Ascending, BlocksOk, Linked, Handed;
    var b := ring[t];
    BlockAt(mem, blk, owner, base, b);
    var q := b + (blk[b] - n);
    var mem' := mem[b := Header(mem[b].ptr, blk[b] - n)][q := Header(junk, n)];
    SplitBlocks(mem, mem', blk, owner, base, b, n);
    NotFree(ring, blk, base, q);
    RelinkedSame(mem, ring, mem', q);
    SplitFree(mem, ring, blk, owner, base, t, n);
  }

  lemma {:induction false} NotFree(ring: seq<int>, blk: map<int, int>, base: int, q: int)
    requires Ascending(ring, base) && FreeOk(ring, blk, {}) && q !in blk && q > base
    ensures q !in ring
  {
    forall k | 0 <= k < |ring| ensures ring[k] != q {
    }
  }

  lemma {:induction false} RelinkedSame(mem: Memory, ring: seq<int>, mem': Memory, q: int)
    requires Linked(mem, ring) && q !in ring && forall a :: a in mem && a != q ==> a in mem' && mem'[a].ptr == mem[a].ptr
    ensures Linked(mem', ring)
  {
    forall k | 0 <= k < |ring| - 1 ensures ring[k] in mem' && mem'[ring[k]].ptr == ring[k + 1] {
      assert ring[k] in ring && ring[k] in mem;
    }
  }

  lemma {:induction false} SplitFree(mem: Memory, ring: seq<int>, blk: map<int, int>, owner: map<int, int>, base: int, t: int, n: int)
    requires BlocksOk(mem, blk, owner, base) && Ascending(ring, base) && FreeOk(ring, blk, {}) && 1 <= t < |ring| - 1 && 0 < n < blk[ring[t]]
    requires ring[t] + (blk[ring[t]] - n) !in blk
    ensures FreeOk(ring, blk[ring[t] := blk[ring[t]] - n][ring[t] + (blk[ring[t]] - n) := n], {})
  {
    hide BlocksOk;
    var b := ring[t];
    var blk' := blk[b := blk[b] - n][b + (blk[b] - n) := n];
    forall k | 1 <= k < |ring| - 2 ensures ring[k] + blk'[ring[k]] != ring[k + 1] {
      DistinctAt(ring, base, t);
      if k == t { Disjoint(mem, blk, owner, base, ring[k], ring[k + 1]); } else { assert ring[k] in blk && blk'[ring[k]] == blk[ring[k]]; }
    }
  }

  /** morecore(): n units from hp on become one block. */
  ghost function Grown(owner: map<int, int>, hp: int, n: nat): map<int, int> {
    owner + map u | u in Units(hp, n) :: hp
  }

  ghost function Units(lo: int, n: nat): (s: set<int>)
    ensures forall u :: u in s <==> lo <= u < lo + n
  {
    if n == 0 then {} else Units(lo, n - 1) + {lo + n - 1}
  }

  lemma {:induction false} GrowBlocks(mem: Memory, ring: seq<int>, blk: map<int, int>, owner: map<int, int>, base: int, hp: int, n: int, junk: int)
    requires HeapOk(mem, ring, blk, owner, base, {}) && n > 0 && base < hp && (forall u :: u in owner ==> u < hp)
    ensures hp !in blk && hp !in ring && HeapOk(mem[hp := Header(junk, n)], ring, blk[hp := n], Grown(owner, hp, n), base, {})
  {
    var mem' := mem[hp := Header(junk, n)];
    OwnsItself(mem, blk, owner, base, hp);
    GrownBlocks(mem, mem', blk, owner, base, hp, n);
    hide BlocksOk, Grown, Ascending, Linked;
    NotFree(ring, blk, base, hp);
    RelinkedSame(mem, ring, mem', hp);
  }

  lemma {:induction false} OwnsItself(mem: Memory, blk: map<int, int>, owner: map<int, int>, base: int, b: int)
    requires BlocksOk(mem, blk, owner, base)
    ensures b in blk ==> b in owner && owner[b] == b
  {
  }

  lemma {:induction false} GrownBlocks(mem: Memory, mem': Memory, blk: map<int, int>, owner: map<int, int>, base: int, hp: int, n: int)
    requires BlocksOk(mem, blk, owner, base) && n > 0 && base < hp && (forall u :: u in owner ==> u < hp) && hp !in blk
    requires hp in mem' && mem'[hp].size == n && forall b :: b in blk ==> b in mem' && mem'[b] == mem[b]
    ensures BlocksOk(mem', blk[hp := n], Grown(owner, hp, n), base)
  {
    GrownUnits(blk, owner, hp, n);
    hide Covering, Within, Grown;
  }

  lemma {:induction false} GrownUnits(blk: map<int, int>, owner: map<int, int>, hp: int, n: int)
    requires Covering(blk, owner) && Within(blk, owner) && n > 0 && (forall u :: u in owner ==> u < hp) && hp !in blk
    ensures Covering(blk[hp := n], Grown(owner, hp, n)) && Within(blk[hp := n], Grown(owner, hp, n))
  {
    GrownOwner(owner, hp, n);
    hide Grown;
    GrownCovering(blk, owner, Grown(owner, hp, n), hp, n);
    GrownWithin(blk, owner, Grown(owner, hp, n), hp, n);
  }

  lemma {:induction false} GrownOwner(owner: map<int, int>, hp: int, n: int)
    requires n > 0 && forall u :: u in owner ==> u < hp
    ensures var o := Grown(owner, hp, n);
            && (forall u :: u in o <==> u in owner || hp <= u < hp + n)
            && (forall u :: u in o ==> o[u] == if hp <= u < hp + n then hp else owner[u])
  {
  }

  lemma {:induction false} GrownCovering(blk: map<int, int>, owner: map<int, int>, o: map<int, int>, hp: int, n: int)
    requires Covering(blk, owner) && n > 0 && (forall u :: u in owner ==> u < hp) && hp !in blk
    requires forall u :: u in o <==> u in owner || hp <= u < hp + n
    requires forall u :: u in o ==> o[u] == if hp <= u < hp + n then hp else owner[u]
    ensures Covering(blk[hp := n], o)
  {
    var k := blk[hp := n];
    forall b, u | b in k && b <= u < b + k[b] ensures u in o && o[u] == b {
      if b != hp { UnitOf(blk, owner, b, u); }
    }
  }

  lemma {:induction false} GrownWithin(blk: map<int, int>, owner: map<int, int>, o: map<int, int>, hp: int, n: int)
    requires Within(blk, owner) && n > 0 && (forall u :: u in owner ==> u < hp) && hp !in blk
    requires forall u :: u in o <==> u in owner || hp <= u < hp + n
    requires forall u :: u in o ==> o[u] == if hp <= u < hp + n then hp else owner[u]
    ensures Within(blk[hp := n], o)
  {
    var k := blk[hp := n];
    forall u | u in o ensures o[u] in k && o[u] <= u < o[u] + k[o[u]] {
      if u in owner { BlockOfUnit(blk, owner, u); }
    }
  }
}
