/** Physical pages as data: which page is free, which page belongs to which place
    of which page table.  Class PageMemory in module PageTables changes it. */
module PageOwners {
  import opened Counting

  /** A 32-bit word of memory, seen as a page table entry: PTE_P, the page number, and the other flag bits. */
  datatype Pte = Pte(present: bool, addr: int, flags: int)

  const ZERO := Pte(false, 0, 0)

  type Page = seq<Pte>

  /** Words in a page, which is also the number of entries of a directory and of a table, and how many entries of a
      directory are for user memory. */
  datatype Shape = Shape(n: nat, users: nat) {
    predicate Ok() { 0 < n && users <= n }
  }

  function ZeroPage(n: nat): (r: Page)
    ensures |r| == n
  {
    seq(n, _ => ZERO)
  }

  ghost predicate PagesOk(S: Shape, ps: seq<Page>) {
    forall f :: 0 <= f < |ps| ==> |ps[f]| == S.n
  }

  /** The page number in an entry: 0 if it is not present, -1 if it is present and not the number of a page of the pool. */
  function Entry(e: Pte): int { if !e.present then 0 else if e.addr > 0 then e.addr else -1 }

  /** Entry t of the table in entry d of directory pg. */
  ghost function PteAt(S: Shape, ps: seq<Page>, pg: int, d: int, t: int): Pte {
    if 0 <= pg < |ps| && 0 <= d < |ps[pg]| then
      var tab := Entry(ps[pg][d]);
      if 0 < tab < |ps| && 0 <= t < |ps[tab]| then ps[tab][t] else ZERO
    else ZERO
  }

  /** The page held at a place: (pg, -1, -1) is directory pg itself, (pg, d, -1) its d-th table, (pg, d, t) a user page. */
  ghost function Held(S: Shape, ps: seq<Page>, dirs: set<int>, pg: int, d: int, t: int): int {
    if pg !in dirs || !(0 <= pg < |ps|) then 0
    else if d == -1 then pg
    else if !(0 <= d < |ps[pg]|) then 0
    else if t == -1 then Entry(ps[pg][d])
    else Entry(PteAt(S, ps, pg, d, t))
  }

  datatype Place = Place(pg: int, d: int, t: int)

  type Owners = map<int, Place>

  ghost predicate IsPlace(S: Shape, pg: int, d: int, t: int) {
    pg > 0 && ((d == -1 && t == -1) || (0 <= d < S.n && t == -1) || (0 <= d < S.users && 0 <= t < S.n))
  }

  /** Pages with owner OTHER are in use elsewhere in the kernel. */
  const OTHER := Place(0, 0, 0)

  /** Every page held at a place belongs to that place and to no other. */
  ghost predicate OwnOk(S: Shape, ps: seq<Page>, dirs: set<int>, ow: Owners) {
    && (forall pg, d, t {:trigger Held(S, ps, dirs, pg, d, t)} :: IsPlace(S, pg, d, t) && Held(S, ps, dirs, pg, d, t) != 0 ==>
          Held(S, ps, dirs, pg, d, t) in ow && ow[Held(S, ps, dirs, pg, d, t)] == Place(pg, d, t))
    && (forall f :: f in ow ==>
          && 0 < f < |ps|
          && (ow[f] == OTHER || (IsPlace(S, ow[f].pg, ow[f].d, ow[f].t) && Held(S, ps, dirs, ow[f].pg, ow[f].d, ow[f].t) == f)))
    && (forall pg :: pg in dirs ==> 0 < pg < |ps|)
  }

  /** The pages of the pool are the free ones, the owned ones and those of `pend`, which the kernel has in its hands. */
  ghost predicate PoolOk(ps: seq<Page>, free: seq<int>, ow: Owners, pend: set<int>, pool: set<int>) {
    && Distinct(free) && (forall f :: f in pool ==> 0 < f < |ps|)
    && (forall f :: f in pool <==> f in free || f in ow || f in pend)
    && (forall f :: f in free ==> f !in ow && f !in pend) && (forall f :: f in pend ==> f !in ow)
  }

  ghost predicate VmOk(S: Shape, ps: seq<Page>, dirs: set<int>, ow: Owners, free: seq<int>, pend: set<int>, pool: set<int>) {
    S.Ok() && PagesOk(S, ps) && OwnOk(S, ps, dirs, ow) && PoolOk(ps, free, ow, pend, pool)
  }

  // ---------------------------------------------------------------- steps on places

  /** ps' and ps agree on owned directories and tables. */
  ghost predicate SameTables(ps: seq<Page>, ps': seq<Page>, ow: Owners) {
    |ps'| == |ps| && forall f :: f in ow && 0 <= f < |ps| && ow[f].t == -1 ==> ps'[f] == ps[f]
  }

  /** Places are read off directories and tables only. */
  lemma {:induction false} HeldSame(S: Shape, ps: seq<Page>, ps': seq<Page>, dirs: set<int>, ow: Owners, pg: int, d: int, t: int)
    requires S.Ok() && OwnOk(S, ps, dirs, ow) && SameTables(ps, ps', ow) && IsPlace(S, pg, d, t)
    ensures Held(S, ps', dirs, pg, d, t) == Held(S, ps, dirs, pg, d, t)
  {
    if pg in dirs {
      assert Held(S, ps, dirs, pg, -1, -1) == pg && IsPlace(S, pg, -1, -1);
      assert ps'[pg] == ps[pg];
      if 0 <= d < |ps[pg]| {
        var tab := Held(S, ps, dirs, pg, d, -1);
        assert IsPlace(S, pg, d, -1);
        assert tab != 0 ==> tab in ow && ow[tab].t == -1;
        assert 0 < tab < |ps| ==> ps'[tab] == ps[tab];
        assert PteAt(S, ps', pg, d, t) == PteAt(S, ps, pg, d, t);
      }
    }
  }

  lemma {:induction false} OwnFrame(S: Shape, ps: seq<Page>, ps': seq<Page>, dirs: set<int>, ow: Owners)
    requires S.Ok() && OwnOk(S, ps, dirs, ow) && SameTables(ps, ps', ow)
    ensures OwnOk(S, ps', dirs, ow)
  {
    forall pg, d, t | IsPlace(S, pg, d, t) ensures Held(S, ps', dirs, pg, d, t) == Held(S, ps, dirs, pg, d, t) {
      HeldSame(S, ps, ps', dirs, ow, pg, d, t);
    }
    hide Held, SameTables;
    OwnSamePlaces(S, ps, ps', dirs, dirs, ow);
  }

  lemma {:induction false} OwnSamePlaces(S: Shape, ps: seq<Page>, ps': seq<Page>, dirs: set<int>, dirs': set<int>, ow: Owners)
    requires OwnOk(S, ps, dirs, ow) && |ps'| == |ps| && (forall pg :: pg in dirs' ==> 0 < pg < |ps|)
    requires forall pg, d, t :: IsPlace(S, pg, d, t) ==> Held(S, ps', dirs', pg, d, t) == Held(S, ps, dirs, pg, d, t)
    ensures OwnOk(S, ps', dirs', ow)
  {
    hide Held;
  }

  /** Place (pg, d, t), empty before, holds f now; every other place is as it was. */
  ghost predicate Assigned(S: Shape, ps: seq<Page>, dirs: set<int>, ps': seq<Page>, dirs': set<int>, pl: Place, f: int) {
    && IsPlace(S, pl.pg, pl.d, pl.t) && Held(S, ps, dirs, pl.pg, pl.d, pl.t) == 0 && Held(S, ps', dirs', pl.pg, pl.d, pl.t) == f
    && forall pg, d, t :: IsPlace(S, pg, d, t) && Place(pg, d, t) != pl ==> Held(S, ps', dirs', pg, d, t) == Held(S, ps, dirs, pg, d, t)
  }

  lemma {:induction false} OwnAssigned(S: Shape, ps: seq<Page>, dirs: set<int>, ps': seq<Page>, dirs': set<int>, ow: Owners, pl: Place, f: int)
    requires OwnOk(S, ps, dirs, ow) && Assigned(S, ps, dirs, ps', dirs', pl, f) && f !in ow && 0 < f < |ps| == |ps'|
    requires forall pg :: pg in dirs' ==> 0 < pg < |ps|
    ensures OwnOk(S, ps', dirs', ow[f := pl])
  {
    hide Held;
    var ow' := ow[f := pl];
    forall pg, d, t | IsPlace(S, pg, d, t) && Held(S, ps', dirs', pg, d, t) != 0
      ensures Held(S, ps', dirs', pg, d, t) in ow' && ow'[Held(S, ps', dirs', pg, d, t)] == Place(pg, d, t)
    {
      if Place(pg, d, t) != pl { assert Held(S, ps', dirs', pg, d, t) == Held(S, ps, dirs, pg, d, t); }
    }
    forall g | g in ow' && ow'[g] != OTHER
      ensures IsPlace(S, ow'[g].pg, ow'[g].d, ow'[g].t) && Held(S, ps', dirs', ow'[g].pg, ow'[g].d, ow'[g].t) == g
    {
      if g != f { assert Held(S, ps, dirs, ow[g].pg, ow[g].d, ow[g].t) == g; }
    }
  }

  lemma {:induction false} PoolMoved(ps: seq<Page>, free: seq<int>, ow: Owners, pend: set<int>, pool: set<int>, f: int, pl: Place)
    requires PoolOk(ps, free, ow, pend, pool) && f in pend
    ensures PoolOk(ps, free, ow[f := pl], pend - {f}, pool) && f !in ow && 0 < f < |ps|
  {
  }

  lemma {:induction false} PoolPages(ps: seq<Page>, ps': seq<Page>, free: seq<int>, ow: Owners, pend: set<int>, pool: set<int>)
    requires PoolOk(ps, free, ow, pend, pool) && |ps'| == |ps|
    ensures PoolOk(ps', free, ow, pend, pool)
  {
  }

  /** Putting a page of `pend` into an empty place. */
  lemma {:induction false} VmAssigned(S: Shape, ps: seq<Page>, dirs: set<int>, ps': seq<Page>, dirs': set<int>, ow: Owners, free: seq<int>,
                                      pend: set<int>, pool: set<int>, pl: Place, f: int)
    requires VmOk(S, ps, dirs, ow, free, pend, pool) && Assigned(S, ps, dirs, ps', dirs', pl, f) && f in pend
    requires PagesOk(S, ps') && |ps'| == |ps| && forall pg :: pg in dirs' ==> 0 < pg < |ps|
    ensures VmOk(S, ps', dirs', ow[f := pl], free, pend - {f}, pool)
  {
    hide OwnOk, PoolOk, Assigned;
    PoolMoved(ps, free, ow, pend, pool, f, pl);
    OwnAssigned(S, ps, dirs, ps', dirs', ow, pl, f);
    PoolPages(ps, ps', free, ow[f := pl], pend - {f}, pool);
  }

  // ---------------------------------------------------------------- taking and giving back

  /** kalloc(): the first free page. */
  lemma {:induction false} TakePage(S: Shape, ps: seq<Page>, dirs: set<int>, ow: Owners, free: seq<int>, pend: set<int>, pool: set<int>)
    requires VmOk(S, ps, dirs, ow, free, pend, pool) && free != []
    ensures VmOk(S, ps, dirs, ow, free[1..], pend + {free[0]}, pool) && 0 < free[0] < |ps| && free[0] !in ow && free[0] !in pend
  {
    hide OwnOk;
    assert free[0] in free;
    forall f ensures f in free <==> f == free[0] || f in free[1..] {
    }
    assert free[0] !in free[1..];
  }

  /** Writing to a page in the kernel's hands. */
  lemma {:induction false} WritePage(S: Shape, ps: seq<Page>, dirs: set<int>, ow: Owners, free: seq<int>, pend: set<int>, pool: set<int>, f: int, x: Page)
    requires VmOk(S, ps, dirs, ow, free, pend, pool) && f in pend && |x| == S.n
    ensures 0 < f < |ps| && f !in ow && VmOk(S, ps[f := x], dirs, ow, free, pend, pool)
  {
    hide OwnOk;
    OwnFrame(S, ps, ps[f := x], dirs, ow);
  }

  /** kfree(): the page is filled with junk and goes to the front of the free list. */
  lemma {:induction false} FreePage(S: Shape, ps: seq<Page>, dirs: set<int>, ow: Owners, free: seq<int>, pend: set<int>, pool: set<int>, f: int, x: Page)
    requires VmOk(S, ps, dirs, ow, free, pend, pool) && f in pend && |x| == S.n
    ensures 0 < f < |ps| && f !in ow && f !in free && VmOk(S, ps[f := x], dirs, ow, [f] + free, pend - {f}, pool)
  {
    WritePage(S, ps, dirs, ow, free, pend, pool, f, x);
    hide OwnOk;
    forall g ensures g in [f] + free <==> g == f || g in free {
    }
  }

  // ---------------------------------------------------------------- directories and tables

  /** A zeroed page becomes a directory. */
  lemma {:induction false} NewDir(S: Shape, ps: seq<Page>, dirs: set<int>, ow: Owners, free: seq<int>, pend: set<int>, pool: set<int>, f: int)
    requires VmOk(S, ps, dirs, ow, free, pend, pool) && f in pend && 0 < f < |ps| && ps[f] == ZeroPage(S.n)
    ensures f !in dirs && VmOk(S, ps, dirs + {f}, ow[f := Place(f, -1, -1)], free, pend - {f}, pool)
  {
    NotDir(S, ps, dirs, ow, free, pend, pool, f);
    assert Assigned(S, ps, dirs, ps, dirs + {f}, Place(f, -1, -1), f);
    DirsIn(S, ps, dirs, ow, free, pend, pool);
    VmAssigned(S, ps, dirs, ps, dirs + {f}, ow, free, pend, pool, Place(f, -1, -1), f);
  }

  lemma {:induction false} DirsIn(S: Shape, ps: seq<Page>, dirs: set<int>, ow: Owners, free: seq<int>, pend: set<int>, pool: set<int>)
    requires VmOk(S, ps, dirs, ow, free, pend, pool)
    ensures forall pg :: pg in dirs ==> 0 < pg < |ps| && pg in ow && ow[pg] == Place(pg, -1, -1) && |ps[pg]| == S.n
  {
    forall pg | pg in dirs ensures pg in ow && ow[pg] == Place(pg, -1, -1) {
      assert IsPlace(S, pg, -1, -1) && Held(S, ps, dirs, pg, -1, -1) == pg;
    }
  }

  lemma {:induction false} NotDir(S: Shape, ps: seq<Page>, dirs: set<int>, ow: Owners, free: seq<int>, pend: set<int>, pool: set<int>, f: int)
    requires VmOk(S, ps, dirs, ow, free, pend, pool) && f in pend
    ensures f !in dirs
  {
    DirsIn(S, ps, dirs, ow, free, pend, pool);
  }

  /** walkpgdir() puts a zeroed table into an empty entry of a directory. */
  lemma {:induction false} NewTable(S: Shape, ps: seq<Page>, dirs: set<int>, ow: Owners, free: seq<int>, pend: set<int>, pool: set<int>,
                                    pg: int, d: int, f: int, flags: int)
    requires VmOk(S, ps, dirs, ow, free, pend, pool) && f in pend && 0 < f < |ps| && ps[f] == ZeroPage(S.n)
    requires pg in dirs && 0 < pg < |ps| && 0 <= d < S.n && |ps[pg]| == S.n && !ps[pg][d].present
    ensures var ps' := ps[pg := ps[pg][d := Pte(true, f, flags)]];
            VmOk(S, ps', dirs, ow[f := Place(pg, d, -1)], free, pend - {f}, pool)
  {
    DirsIn(S, ps, dirs, ow, free, pend, pool);
    var ps' := ps[pg := ps[pg][d := Pte(true, f, flags)]];
    TableAssigned(S, ps, dirs, ow, pg, d, f, flags) by { InHands(ps, free, ow, pend, pool, f); }
    hide OwnOk, PoolOk;
    VmAssigned(S, ps, dirs, ps', dirs, ow, free, pend, pool, Place(pg, d, -1), f);
  }

  lemma {:induction false} InHands(ps: seq<Page>, free: seq<int>, ow: Owners, pend: set<int>, pool: set<int>, f: int)
    requires PoolOk(ps, free, ow, pend, pool) && f in pend
    ensures f !in ow
  {
  }

  lemma {:induction false} TableAssigned(S: Shape, ps: seq<Page>, dirs: set<int>, ow: Owners, pg: int, d: int, f: int, flags: int)
    requires S.Ok() && OwnOk(S, ps, dirs, ow) && f !in ow && 0 < f < |ps| && ps[f] == ZeroPage(S.n)
    requires pg in dirs && 0 < pg < |ps| && pg in ow && ow[pg] == Place(pg, -1, -1) && 0 <= d < S.n && |ps[pg]| == S.n && !ps[pg][d].present
    ensures Assigned(S, ps, dirs, ps[pg := ps[pg][d := Pte(true, f, flags)]], dirs, Place(pg, d, -1), f)
  {
    var ps' := ps[pg := ps[pg][d := Pte(true, f, flags)]];
    forall q, e, t | IsPlace(S, q, e, t) && Place(q, e, t) != Place(pg, d, -1) ensures Held(S, ps', dirs, q, e, t) == Held(S, ps, dirs, q, e, t) {
      if q in dirs && 0 < q < |ps| && 0 <= e < |ps[q]| {
        var tab := Held(S, ps, dirs, q, e, -1);
        assert IsPlace(S, q, e, -1);
        assert tab != 0 ==> tab in ow && ow[tab] == Place(q, e, -1);
      }
    }
  }

  // ---------------------------------------------------------------- entries of tables

  /** The table of place (pg, d, t) and its owner. */
  lemma {:induction false} TableAt(S: Shape, ps: seq<Page>, dirs: set<int>, ow: Owners, free: seq<int>, pend: set<int>, pool: set<int>, pg: int, d: int)
    requires VmOk(S, ps, dirs, ow, free, pend, pool) && pg in dirs && 0 <= d < S.n
    ensures 0 < pg < |ps| && |ps[pg]| == S.n && pg in ow && ow[pg] == Place(pg, -1, -1)
    ensures ps[pg][d].present ==>
      var tab := ps[pg][d].addr;
      0 < tab < |ps| && |ps[tab]| == S.n && tab in ow && ow[tab] == Place(pg, d, -1)
  {
    DirsIn(S, ps, dirs, ow, free, pend, pool);
    assert IsPlace(S, pg, d, -1) && Held(S, ps, dirs, pg, d, -1) == Entry(ps[pg][d]);
  }

  /** Changing entry t of table (pg, d) changes no place but (pg, d, t), and that one only in user memory. */
  lemma {:induction false} EntryChanged(S: Shape, ps: seq<Page>, dirs: set<int>, ow: Owners, pg: int, d: int, tab: int, t: int, e: Pte)
    requires S.Ok() && OwnOk(S, ps, dirs, ow) && 0 < tab < |ps| && |ps[tab]| == S.n && tab in ow && ow[tab] == Place(pg, d, -1) && 0 <= t < S.n
    requires pg in dirs && 0 < pg < |ps| && 0 <= d < |ps[pg]| && d < S.n && Entry(ps[pg][d]) == tab && pg in ow && ow[pg] == Place(pg, -1, -1)
    ensures var ps' := ps[tab := ps[tab][t := e]];
            && (forall q, c, u :: IsPlace(S, q, c, u) && Place(q, c, u) != Place(pg, d, t) ==> Held(S, ps', dirs, q, c, u) == Held(S, ps, dirs, q, c, u))
            && Held(S, ps, dirs, pg, d, t) == Entry(ps[tab][t]) && Held(S, ps', dirs, pg, d, t) == Entry(e)
  {
    var ps' := ps[tab := ps[tab][t := e]];
    forall q, c, u | IsPlace(S, q, c, u) && Place(q, c, u) != Place(pg, d, t) ensures Held(S, ps', dirs, q, c, u) == Held(S, ps, dirs, q, c, u) {
      if q in dirs {
        assert IsPlace(S, q, -1, -1) && Held(S, ps, dirs, q, -1, -1) == q;
        assert q != tab;
        if 0 <= c < |ps[q]| {
          var x := Held(S, ps, dirs, q, c, -1);
          assert IsPlace(S, q, c, -1);
          assert x == tab && x != 0 ==> q == pg && c == d;
        }
      }
    }
  }

  /** mappages() puts a page into an entry that is not present. */
  lemma {:induction false} NewPage(S: Shape, ps: seq<Page>, dirs: set<int>, ow: Owners, free: seq<int>, pend: set<int>, pool: set<int>,
                                   pg: int, d: int, t: int, f: int, flags: int)
    requires VmOk(S, ps, dirs, ow, free, pend, pool) && f in pend && pg in dirs && 0 <= d < S.users && 0 <= t < S.n
    requires 0 < pg < |ps| && 0 <= d < |ps[pg]| && ps[pg][d].present && 0 < ps[pg][d].addr < |ps|
    requires t < |ps[ps[pg][d].addr]| && !ps[ps[pg][d].addr][t].present
    ensures var tab := ps[pg][d].addr;
            VmOk(S, ps[tab := ps[tab][t := Pte(true, f, flags)]], dirs, ow[f := Place(pg, d, t)], free, pend - {f}, pool)
  {
    TableAt(S, ps, dirs, ow, free, pend, pool, pg, d);
    DirsIn(S, ps, dirs, ow, free, pend, pool);
    var tab := ps[pg][d].addr;
    var ps' := ps[tab := ps[tab][t := Pte(true, f, flags)]];
    EntryChanged(S, ps, dirs, ow, pg, d, tab, t, Pte(true, f, flags));
    hide OwnOk, PoolOk, Held;
    VmAssigned(S, ps, dirs, ps', dirs, ow, free, pend, pool, Place(pg, d, t), f);
  }

  /** mappages() in the kernel's part of a page table. */
  lemma {:induction false} KernelEntry(S: Shape, ps: seq<Page>, dirs: set<int>, ow: Owners, free: seq<int>, pend: set<int>, pool: set<int>,
                                       pg: int, d: int, t: int, e: Pte)
    requires VmOk(S, ps, dirs, ow, free, pend, pool) && pg in dirs && S.users <= d < S.n && 0 <= t < S.n
    requires 0 < pg < |ps| && 0 <= d < |ps[pg]| && ps[pg][d].present && 0 < ps[pg][d].addr < |ps| && t < |ps[ps[pg][d].addr]|
    ensures var tab := ps[pg][d].addr;
            VmOk(S, ps[tab := ps[tab][t := e]], dirs, ow, free, pend, pool)
  {
    TableAt(S, ps, dirs, ow, free, pend, pool, pg, d);
    DirsIn(S, ps, dirs, ow, free, pend, pool);
    var tab := ps[pg][d].addr;
    var ps' := ps[tab := ps[tab][t := e]];
    EntryChanged(S, ps, dirs, ow, pg, d, tab, t, e);
    hide PoolOk, Held;
    OwnSamePlaces(S, ps, ps', dirs, dirs, ow);
    PoolPages(ps, ps', free, ow, pend, pool);
  }

  /** The places that held a page of F are empty now; every other place is as it was. */
  ghost predicate Detached(S: Shape, ps: seq<Page>, dirs: set<int>, ps': seq<Page>, dirs': set<int>, F: set<int>) {
    forall pg, d, t :: IsPlace(S, pg, d, t) ==>
      Held(S, ps', dirs', pg, d, t) == if Held(S, ps, dirs, pg, d, t) in F then 0 else Held(S, ps, dirs, pg, d, t)
  }

  lemma {:induction false} OwnDetached(S: Shape, ps: seq<Page>, dirs: set<int>, ps': seq<Page>, dirs': set<int>, ow: Owners, F: set<int>)
    requires OwnOk(S, ps, dirs, ow) && Detached(S, ps, dirs, ps', dirs', F) && |ps'| == |ps| && dirs' <= dirs
    ensures OwnOk(S, ps', dirs', ow - F)
  {
    hide Held;
    var ow' := ow - F;
    forall pg, d, t | IsPlace(S, pg, d, t) && Held(S, ps', dirs', pg, d, t) != 0
      ensures Held(S, ps', dirs', pg, d, t) in ow' && ow'[Held(S, ps', dirs', pg, d, t)] == Place(pg, d, t)
    {
      assert Held(S, ps', dirs', pg, d, t) == Held(S, ps, dirs, pg, d, t);
    }
    forall g | g in ow' && ow'[g] != OTHER ensures Held(S, ps', dirs', ow'[g].pg, ow'[g].d, ow'[g].t) == g {
      assert Held(S, ps, dirs, ow[g].pg, ow[g].d, ow[g].t) == g;
    }
  }

  lemma {:induction false} PoolDetached(ps: seq<Page>, free: seq<int>, ow: Owners, pend: set<int>, pool: set<int>, F: set<int>)
    requires PoolOk(ps, free, ow, pend, pool) && F <= ow.Keys
    ensures PoolOk(ps, free, ow - F, pend + F, pool)
  {
    forall f ensures f in pool <==> f in free || f in ow - F || f in pend + F {
      assert f in F ==> f in ow.Keys;
    }
  }

  lemma {:induction false} VmDetached(S: Shape, ps: seq<Page>, dirs: set<int>, ps': seq<Page>, dirs': set<int>, ow: Owners, free: seq<int>,
                                      pend: set<int>, pool: set<int>, F: set<int>)
    requires VmOk(S, ps, dirs, ow, free, pend, pool) && Detached(S, ps, dirs, ps', dirs', F) && F <= ow.Keys
    requires PagesOk(S, ps') && |ps'| == |ps| && dirs' <= dirs
    ensures VmOk(S, ps', dirs', ow - F, free, pend + F, pool)
  {
    hide OwnOk, PoolOk, Detached;
    OwnDetached(S, ps, dirs, ps', dirs', ow, F);
    PoolDetached(ps, free, ow, pend, pool, F);
    PoolPages(ps, ps', free, ow - F, pend + F, pool);
  }

  /** deallocuvm() clears the entry of a user page. */
  lemma {:induction false} DropPage(S: Shape, ps: seq<Page>, dirs: set<int>, ow: Owners, free: seq<int>, pend: set<int>, pool: set<int>, pg: int, d: int, t: int)
    requires VmOk(S, ps, dirs, ow, free, pend, pool) && pg in dirs && 0 <= d < S.users && 0 <= t < S.n
    requires 0 < pg < |ps| && 0 <= d < |ps[pg]| && ps[pg][d].present && 0 < ps[pg][d].addr < |ps|
    requires t < |ps[ps[pg][d].addr]| && ps[ps[pg][d].addr][t].present
    ensures var tab := ps[pg][d].addr;
            && var f := ps[tab][t].addr;
            && f in ow && ow[f] == Place(pg, d, t) && f != tab && f != pg && 0 < f < |ps|
            && VmOk(S, ps[tab := ps[tab][t := ZERO]], dirs, ow - {f}, free, pend + {f}, pool)
  {
    TableAt(S, ps, dirs, ow, free, pend, pool, pg, d);
    var tab := ps[pg][d].addr;
    var f := ps[tab][t].addr;
    var ps' := ps[tab := ps[tab][t := ZERO]];
    EntryChanged(S, ps, dirs, ow, pg, d, tab, t, ZERO);
    hide PoolOk, Held;
    assert IsPlace(S, pg, d, t) && Held(S, ps, dirs, pg, d, t) == Entry(ps[tab][t]);
    forall q, c, u | IsPlace(S, q, c, u)
      ensures Held(S, ps', dirs, q, c, u) == if Held(S, ps, dirs, q, c, u) in {f} then 0 else Held(S, ps, dirs, q, c, u)
    {
      assert Held(S, ps, dirs, q, c, u) == f ==> Place(q, c, u) == Place(pg, d, t);
    }
    VmDetached(S, ps, dirs, ps', dirs, ow, free, pend, pool, {f});
  }

  /** All pages of page table pg. */
  ghost function PagesOf(ow: Owners, pg: int): set<int> {
    set f | f in ow && ow[f].pg == pg
  }

  /** freevm(): the directory is no directory any more; its pages are in the kernel's hands. */
  lemma {:induction false} DropDir(S: Shape, ps: seq<Page>, dirs: set<int>, ow: Owners, free: seq<int>, pend: set<int>, pool: set<int>, pg: int)
    requires VmOk(S, ps, dirs, ow, free, pend, pool) && pg in dirs
    ensures VmOk(S, ps, dirs - {pg}, ow - PagesOf(ow, pg), free, pend + PagesOf(ow, pg), pool)
  {
    DirsIn(S, ps, dirs, ow, free, pend, pool);
    var F := PagesOf(ow, pg);
    hide PoolOk;
    forall q, d, t | IsPlace(S, q, d, t)
      ensures Held(S, ps, dirs - {pg}, q, d, t) == if Held(S, ps, dirs, q, d, t) in F then 0 else Held(S, ps, dirs, q, d, t)
    {
      var f := Held(S, ps, dirs, q, d, t);
      assert f != 0 ==> f in ow && ow[f] == Place(q, d, t);
      assert q != pg ==> Held(S, ps, dirs - {pg}, q, d, t) == f;
      assert q == pg ==> Held(S, ps, dirs - {pg}, q, d, t) == 0;
      assert f in F ==> ow[f].pg == pg;
    }
    VmDetached(S, ps, dirs, ps, dirs - {pg}, ow, free, pend, pool, F);
  }
}
