/** vm.c and kalloc.c: two-level page tables over a pool of physical pages. */
module PageTables {
  import opened Arith
  import opened Counting
  import opened PageOwners

  /** Owned pages stay owned; only the directory and tables of pg change; new pages are pg's. */
  ghost predicate Grew(ow: Owners, ps: seq<Page>, ow': Owners, ps': seq<Page>, pg: int) {
    && |ps'| == |ps|
    && (forall f :: f in ow ==> f in ow' && ow'[f] == ow[f] && 0 <= f < |ps| && ((ow[f].pg == pg && ow[f].t == -1) || ps'[f] == ps[f]))
    && (forall f :: f in ow' && f !in ow ==> ow'[f].pg == pg)
  }

  lemma {:induction false} GrewTrans(ow: Owners, ps: seq<Page>, ow1: Owners, ps1: seq<Page>, ow2: Owners, ps2: seq<Page>, pg: int)
    requires Grew(ow, ps, ow1, ps1, pg) && Grew(ow1, ps1, ow2, ps2, pg)
    ensures Grew(ow, ps, ow2, ps2, pg)
  {
  }

  /** The entries of page table pg, but for (d, t), are as they were. */
  ghost predicate SameBut(S: Shape, ps: seq<Page>, ps': seq<Page>, pg: int, d: int, t: int) {
    forall c, u :: 0 <= c < S.n && 0 <= u < S.n && (c != d || u != t) ==> PteAt(S, ps', pg, c, u) == PteAt(S, ps, pg, c, u)
  }

  /** walkpgdir()'s new table has no entries. */
  lemma {:induction false} TableView(S: Shape, ps: seq<Page>, dirs: set<int>, ow: Owners, free: seq<int>, pend: set<int>, pool: set<int>,
                                     pg: int, d: int, f: int, flags: int)
    requires VmOk(S, ps, dirs, ow, free, pend, pool) && f in pend && 0 < f < |ps| && ps[f] == ZeroPage(S.n)
    requires pg in dirs && 0 < pg < |ps| && 0 <= d < S.n && |ps[pg]| == S.n && !ps[pg][d].present
    ensures var ps' := ps[pg := ps[pg][d := Pte(true, f, flags)]];
            SameBut(S, ps, ps', pg, -1, -1) && Grew(ow, ps, ow[f := Place(pg, d, -1)], ps', pg)
  {
    var ps' := ps[pg := ps[pg][d := Pte(true, f, flags)]];
    DirsIn(S, ps, dirs, ow, free, pend, pool);
    forall c, u | 0 <= c < S.n && 0 <= u < S.n ensures PteAt(S, ps', pg, c, u) == PteAt(S, ps, pg, c, u) {
      TableAt(S, ps, dirs, ow, free, pend, pool, pg, c);
    }
  }

  /** Changing one entry of a table. */
  lemma {:induction false} EntryView(S: Shape, ps: seq<Page>, dirs: set<int>, ow: Owners, free: seq<int>, pend: set<int>, pool: set<int>,
                                     pg: int, d: int, t: int, e: Pte)
    requires VmOk(S, ps, dirs, ow, free, pend, pool) && pg in dirs && 0 <= d < S.n && 0 <= t < S.n
    requires 0 < pg < |ps| && |ps[pg]| == S.n && ps[pg][d].present && 0 < ps[pg][d].addr < |ps| && |ps[ps[pg][d].addr]| == S.n
    ensures var tab := ps[pg][d].addr;
            && var ps' := ps[tab := ps[tab][t := e]];
            && SameBut(S, ps, ps', pg, d, t) && PteAt(S, ps', pg, d, t) == e && PteAt(S, ps, pg, d, t) == ps[tab][t]
            && tab in ow && ow[tab] == Place(pg, d, -1) && tab != pg
  {
    var tab := ps[pg][d].addr;
    var ps' := ps[tab := ps[tab][t := e]];
    TableAt(S, ps, dirs, ow, free, pend, pool, pg, d);
    forall c, u | 0 <= c < S.n && 0 <= u < S.n && (c != d || u != t) ensures PteAt(S, ps', pg, c, u) == PteAt(S, ps, pg, c, u) {
      TableAt(S, ps, dirs, ow, free, pend, pool, pg, c);
    }
  }

  lemma {:induction false} GrewRefl(S: Shape, ps: seq<Page>, dirs: set<int>, ow: Owners, free: seq<int>, pend: set<int>, pool: set<int>, pg: int)
    requires VmOk(S, ps, dirs, ow, free, pend, pool)
    ensures Grew(ow, ps, ow, ps, pg) && SameBut(S, ps, ps, pg, -1, -1) && (pg in dirs ==> pg !in pend)
  {
    DirsIn(S, ps, dirs, ow, free, pend, pool);
    hide Held;
  }

  lemma {:induction false} SameTrans(S: Shape, ps: seq<Page>, ps1: seq<Page>, ps2: seq<Page>, pg: int, d: int, t: int)
    requires SameBut(S, ps, ps1, pg, -1, -1) && SameBut(S, ps1, ps2, pg, d, t)
    ensures SameBut(S, ps, ps2, pg, d, t)
  {
    hide PteAt;
  }

  /** Writing to a page in the kernel's hands is not seen through page tables. */
  lemma {:induction false} PendingView(S: Shape, ps: seq<Page>, dirs: set<int>, ow: Owners, free: seq<int>, pend: set<int>, pool: set<int>, pg: int, f: int, x: Page)
    requires VmOk(S, ps, dirs, ow, free, pend, pool) && pg in dirs && f in pend && 0 <= f < |ps|
    ensures var ps' := ps[f := x]; SameBut(S, ps, ps', pg, -1, -1) && Grew(ow, ps, ow, ps', pg) && f != pg
  {
    DirsIn(S, ps, dirs, ow, free, pend, pool);
    var ps' := ps[f := x];
    forall c, u | 0 <= c < S.n && 0 <= u < S.n ensures PteAt(S, ps', pg, c, u) == PteAt(S, ps, pg, c, u) {
      TableAt(S, ps, dirs, ow, free, pend, pool, pg, c);
    }
    hide Held;
  }

  // ---------------------------------------------------------------- entries by page number

  /** The entry for virtual page v. */
  ghost function Pt(S: Shape, ps: seq<Page>, pg: int, v: int): Pte {
    if S.n > 0 then PteAt(S, ps, pg, v / S.n, v % S.n) else ZERO
  }

  lemma {:induction false} PtSplit(S: Shape, ps: seq<Page>, pg: int, v: nat, d: int, t: int)
    requires S.n > 0 && v < S.n * S.n && d == v / S.n && t == v % S.n
    ensures 0 <= d < S.n && 0 <= t < S.n && v == d * S.n + t && Pt(S, ps, pg, v) == PteAt(S, ps, pg, d, t)
  {
    DivBounds(v, S.n);
    DivBelow(d, S.n, S.n, v);
  }

  lemma {:induction false} PtBut(S: Shape, ps: seq<Page>, ps': seq<Page>, pg: int, v: nat, d: int, t: int)
    requires S.n > 0 && SameBut(S, ps, ps', pg, d, t) && (d == -1 || v == d * S.n + t)
    ensures forall w :: 0 <= w < S.n * S.n && w != v ==> Pt(S, ps', pg, w) == Pt(S, ps, pg, w)
    ensures d == -1 && v < S.n * S.n ==> Pt(S, ps', pg, v) == Pt(S, ps, pg, v)
  {
    hide PteAt;
    forall w | 0 <= w < S.n * S.n && (w != v || d == -1) ensures Pt(S, ps', pg, w) == Pt(S, ps, pg, w) {
      PtSplit(S, ps, pg, w, w / S.n, w % S.n);
    }
  }

  lemma {:induction false} ShapeOk(S: Shape, ps: seq<Page>, dirs: set<int>, ow: Owners, free: seq<int>, pend: set<int>, pool: set<int>)
    requires VmOk(S, ps, dirs, ow, free, pend, pool)
    ensures S.n > 0 && S.users <= S.n && PagesOk(S, ps)
  {
    hide OwnOk, PoolOk;
  }

  /** An entry is present only if its table is. */
  lemma {:induction false} NoTable(S: Shape, ps: seq<Page>, pg: int, d: int, t: int)
    requires 0 <= pg < |ps| && 0 <= d < |ps[pg]| && !ps[pg][d].present
    ensures PteAt(S, ps, pg, d, t) == ZERO
  {
  }

  lemma {:induction false} WalkedPresent(S: Shape, ps: seq<Page>, pg: int, d: int, t: int)
    requires 0 <= pg < |ps| && 0 <= d < |ps[pg]| && PteAt(S, ps, pg, d, t).present
    ensures ps[pg][d].present
  {
  }

  lemma {:induction false} OwnedNotPending(S: Shape, ps: seq<Page>, dirs: set<int>, ow: Owners, free: seq<int>, pend: set<int>, pool: set<int>, f: int)
    requires VmOk(S, ps, dirs, ow, free, pend, pool) && f in ow
    ensures f !in pend && f !in free && f in pool && 0 < f < |ps|
  {
    hide OwnOk;
  }

  lemma {:induction false} EntryGrew(S: Shape, ps: seq<Page>, dirs: set<int>, ow: Owners, free: seq<int>, pend: set<int>, pool: set<int>,
                                     pg: int, d: int, t: int, f: int, e: Pte)
    requires VmOk(S, ps, dirs, ow, free, pend, pool) && pg in dirs && 0 <= d < S.n && 0 <= t < S.n
    requires 0 < pg < |ps| && |ps[pg]| == S.n && ps[pg][d].present && 0 < ps[pg][d].addr < |ps| && |ps[ps[pg][d].addr]| == S.n
    ensures var tab := ps[pg][d].addr;
            && var ps' := ps[tab := ps[tab][t := e]];
            && Grew(ow, ps, ow, ps', pg) && (f in pend ==> Grew(ow, ps, ow[f := Place(pg, d, t)], ps', pg))
  {
    TableAt(S, ps, dirs, ow, free, pend, pool, pg, d);
    hide Held;
  }

  // ---------------------------------------------------------------- giving pages back

  /** Only user pages of pg are given up, and only the directory and tables of pg change. */
  ghost predicate Shrunk(ow: Owners, ps: seq<Page>, ow': Owners, ps': seq<Page>, pg: int) {
    && |ps'| == |ps|
    && (forall f :: f in ow' ==> f in ow && ow'[f] == ow[f] && 0 <= f < |ps| && ((ow[f].pg == pg && ow[f].t == -1) || ps'[f] == ps[f]))
    && (forall f :: f in ow && f !in ow' ==> ow[f].pg == pg && ow[f].t != -1)
  }

  lemma {:induction false} ShrunkTrans(ow: Owners, ps: seq<Page>, ow1: Owners, ps1: seq<Page>, ow2: Owners, ps2: seq<Page>, pg: int)
    requires Shrunk(ow, ps, ow1, ps1, pg) && Shrunk(ow1, ps1, ow2, ps2, pg)
    ensures Shrunk(ow, ps, ow2, ps2, pg)
  {
  }

  lemma {:induction false} ShrunkRefl(S: Shape, ps: seq<Page>, dirs: set<int>, ow: Owners, free: seq<int>, pend: set<int>, pool: set<int>, pg: int)
    requires VmOk(S, ps, dirs, ow, free, pend, pool)
    ensures Shrunk(ow, ps, ow, ps, pg)
  {
    hide Held;
  }

  /** kfree() of a user page and clearing its entry, in either order. */
  lemma {:induction false} GiveBack(S: Shape, ps: seq<Page>, dirs: set<int>, ow: Owners, free: seq<int>, pend: set<int>, pool: set<int>,
                                    pg: int, d: int, t: int, junk: Page)
    requires VmOk(S, ps, dirs, ow, free, pend, pool) && pg in dirs && 0 <= d < S.users && 0 <= t < S.n && |junk| == S.n
    requires 0 < pg < |ps| && |ps[pg]| == S.n && ps[pg][d].present && 0 < ps[pg][d].addr < |ps|
    requires |ps[ps[pg][d].addr]| == S.n && ps[ps[pg][d].addr][t].present
    ensures var tab := ps[pg][d].addr;
            && var f := ps[tab][t].addr;
            && f in ow && f !in pend && f != tab && 0 < f < |ps| && ow[f] == Place(pg, d, t)
            && var ps' := ps[f := junk][tab := ps[tab][t := ZERO]];
            && VmOk(S, ps', dirs, ow - {f}, [f] + free, pend, pool) && SameBut(S, ps, ps', pg, d, t) && PteAt(S, ps', pg, d, t) == ZERO
            && Shrunk(ow, ps, ow - {f}, ps', pg)
  {
    hide VmOk, PteAt, SameBut;
    ShapeOk(S, ps, dirs, ow, free, pend, pool);
    var tab := ps[pg][d].addr;
    var f := ps[tab][t].addr;
    DropPage(S, ps, dirs, ow, free, pend, pool, pg, d, t);
    OwnedNotPending(S, ps, dirs, ow, free, pend, pool, f);
    TableAt(S, ps, dirs, ow, free, pend, pool, pg, d);
    EntryView(S, ps, dirs, ow, free, pend, pool, pg, d, t, ZERO);
    var ps1 := ps[tab := ps[tab][t := ZERO]];
    FreePage(S, ps1, dirs, ow - {f}, free, pend + {f}, pool, f, junk);
    assert ps1[f := junk] == ps[f := junk][tab := ps[tab][t := ZERO]];
    assert pend + {f} - {f} == pend;
    PendingView(S, ps1, dirs, ow - {f}, free, pend + {f}, pool, pg, f, junk);
    SameTrans2(S, ps, ps1, ps1[f := junk], pg, d, t);
    SameAt(S, ps1, ps1[f := junk], pg, d, t);
    ShrunkRefl(S, ps, dirs, ow, free, pend, pool, pg);
  }

  lemma {:induction false} SameAt(S: Shape, ps: seq<Page>, ps': seq<Page>, pg: int, d: int, t: int)
    requires SameBut(S, ps, ps', pg, -1, -1) && 0 <= d < S.n && 0 <= t < S.n
    ensures PteAt(S, ps', pg, d, t) == PteAt(S, ps, pg, d, t)
  {
    hide PteAt;
  }

  lemma {:induction false} SameTrans2(S: Shape, ps: seq<Page>, ps1: seq<Page>, ps2: seq<Page>, pg: int, d: int, t: int)
    requires SameBut(S, ps, ps1, pg, d, t) && SameBut(S, ps1, ps2, pg, -1, -1)
    ensures SameBut(S, ps, ps2, pg, d, t)
  {
    hide PteAt;
  }

  /** PGROUNDUP in pages. */
  function Up(sz: nat, pgsize: nat): (r: nat)
    requires pgsize > 0
  {
    DivNonNeg(sz + pgsize - 1, pgsize);
    (sz + pgsize - 1) / pgsize
  }

  lemma {:induction false} UpIff(sz: nat, pgsize: nat, a: nat)
    requires pgsize > 0
    ensures a * pgsize < sz <==> a < Up(sz, pgsize)
  {
    DivBounds(sz + pgsize - 1, pgsize);
    MulStrict(a, Up(sz, pgsize), pgsize);
    MulMono(Up(sz, pgsize), if a < Up(sz, pgsize) then Up(sz, pgsize) else a, pgsize);
  }

  /** The pages from lo to hi are not mapped, the others as before. */
  ghost predicate Cleared(S: Shape, ps: seq<Page>, ps': seq<Page>, pg: int, lo: int, hi: int) {
    forall v :: 0 <= v < S.n * S.n ==> if lo <= v < hi then !Pt(S, ps', pg, v).present else Pt(S, ps', pg, v) == Pt(S, ps, pg, v)
  }

  lemma {:induction false} ClearedOne(S: Shape, ps: seq<Page>, ps1: seq<Page>, ps2: seq<Page>, pg: int, lo: nat, a: nat, d: int, t: int)
    requires S.n > 0 && Cleared(S, ps, ps1, pg, lo, a) && lo <= a && a == d * S.n + t && SameBut(S, ps1, ps2, pg, d, t)
    requires 0 <= d < S.n && 0 <= t < S.n && !PteAt(S, ps2, pg, d, t).present
    ensures Cleared(S, ps, ps2, pg, lo, a + 1)
  {
    PtBut(S, ps1, ps2, pg, a, d, t);
    DivStep(d, S.n, t);
    hide PteAt, SameBut;
  }

  /** Without a table there is nothing to unmap up to the next directory entry. */
  lemma {:induction false} ClearedSkip(S: Shape, ps: seq<Page>, ps1: seq<Page>, pg: int, lo: nat, a: nat, d: int, e: nat)
    requires S.n > 0 && Cleared(S, ps, ps1, pg, lo, a) && lo <= a <= e <= (d + 1) * S.n && 0 <= d < S.n && d == a / S.n
    requires 0 <= pg < |ps1| && |ps1[pg]| == S.n && !ps1[pg][d].present
    ensures Cleared(S, ps, ps1, pg, lo, e)
  {
    DivBounds(a, S.n);
    assert (d + 1) * S.n == d * S.n + S.n;
    forall v | a <= v < e ensures Pt(S, ps1, pg, v) == ZERO {
      DivStep(d, S.n, v - d * S.n);
      NoTable(S, ps1, pg, d, v % S.n);
    }
    hide Pt;
  }

  lemma {:induction false} ClearedNone(S: Shape, ps: seq<Page>, pg: int, lo: int)
    ensures Cleared(S, ps, ps, pg, lo, lo)
  {
    hide Pt;
  }

  lemma {:induction false} UpMono(a: nat, b: nat, pgsize: nat)
    requires pgsize > 0 && a <= b
    ensures Up(a, pgsize) <= Up(b, pgsize)
  {
    DivMono(a + pgsize - 1, b + pgsize - 1, pgsize);
  }

  lemma {:induction false} UserPageAt(S: Shape, hi: nat, a: nat)
    requires S.Ok() && a < hi <= S.users * S.n
    ensures 0 <= a / S.n < S.users && 0 <= a % S.n < S.n && a == (a / S.n) * S.n + a % S.n && a < (a / S.n + 1) * S.n
  {
    DivBounds(a, S.n);
    DivBelow(a / S.n, S.n, S.users, a);
    assert (a / S.n + 1) * S.n == (a / S.n) * S.n + S.n;
  }

  lemma {:induction false} EntryIs(S: Shape, ps: seq<Page>, pg: int, d: int, t: int)
    requires 0 <= pg < |ps| && 0 <= d < |ps[pg]| && ps[pg][d].present && 0 < ps[pg][d].addr < |ps| && 0 <= t < |ps[ps[pg][d].addr]|
    ensures PteAt(S, ps, pg, d, t) == ps[ps[pg][d].addr][t]
  {
  }

  lemma {:induction false} ButMore(S: Shape, ps: seq<Page>, ps': seq<Page>, pg: int, d: int, t: int)
    requires SameBut(S, ps, ps', pg, -1, -1)
    ensures SameBut(S, ps, ps', pg, d, t)
  {
    hide PteAt;
  }

  /** What kfree() fills a page with. */
  function Junk(n: nat): (x: Page)
    ensures |x| == n
  {
    seq(n, _ => Pte(true, 0x1010, 0x100))
  }

  // ---------------------------------------------------------------- freevm

  /** Owned pages and the pages of `pend` have their contents. */
  ghost predicate SameData(ow: Owners, ps: seq<Page>, ps': seq<Page>) {
    |ps'| == |ps| && forall f :: f in ow && 0 <= f < |ps| ==> ps'[f] == ps[f]
  }

  /** What freevm() has left to free of page table pg, whose owners were o, at entry i of the directory. */
  ghost predicate TablesLeft(S: Shape, dir: Page, o: Owners, pend0: set<int>, pend: set<int>, pg: int, i: nat) {
    && |dir| == S.n && pg in o && o[pg] == Place(pg, -1, -1)
    && (forall d :: 0 <= d < S.n && dir[d].present ==> dir[d].addr in o && o[dir[d].addr] == Place(pg, d, -1))
    && (forall f :: f in o && o[f].pg == pg ==> f !in pend0 && o[f].t == -1 && (o[f].d == -1 ==> f == pg))
    && (forall f :: f in o && o[f].pg == pg && o[f].d != -1 ==> 0 <= o[f].d < S.n && dir[o[f].d].present && dir[o[f].d].addr == f)
    && (forall f :: f in pend <==> f in pend0 || (f in o && o[f].pg == pg && (o[f].d == -1 || o[f].d >= i)))
  }

  lemma {:induction false} TablesNext(S: Shape, dir: Page, o: Owners, pend0: set<int>, pend: set<int>, pg: int, i: nat)
    requires TablesLeft(S, dir, o, pend0, pend, pg, i) && i < S.n
    ensures dir[i].present ==> dir[i].addr in pend && dir[i].addr != pg && dir[i].addr !in pend0
    ensures TablesLeft(S, dir, o, pend0, if dir[i].present then pend - {dir[i].addr} else pend, pg, i + 1)
  {
  }

  lemma {:induction false} TablesEnd(S: Shape, dir: Page, o: Owners, pend0: set<int>, pend: set<int>, pg: int)
    requires TablesLeft(S, dir, o, pend0, pend, pg, S.n)
    ensures pg in pend && pg !in pend0 && pend - {pg} == pend0
  {
    forall f ensures f in pend - {pg} <==> f in pend0 {
    }
  }

  lemma {:induction false} TablesStart(S: Shape, ps: seq<Page>, dirs: set<int>, ow: Owners, free: seq<int>, pend: set<int>, pool: set<int>, pg: int)
    requires VmOk(S, ps, dirs, ow, free, pend, pool) && pg in dirs && forall v :: 0 <= v < S.users * S.n ==> !Pt(S, ps, pg, v).present
    ensures 0 < pg < |ps| && TablesLeft(S, ps[pg], ow, pend, pend + PagesOf(ow, pg), pg, 0)
  {
    DirsIn(S, ps, dirs, ow, free, pend, pool);
    forall d | 0 <= d < S.n && ps[pg][d].present ensures ps[pg][d].addr in ow && ow[ps[pg][d].addr] == Place(pg, d, -1) {
      TableAt(S, ps, dirs, ow, free, pend, pool, pg, d);
    }
    forall f | f in ow && ow[f].pg == pg ensures f !in pend && ow[f].t == -1 && (ow[f].d == -1 ==> f == pg) {
      if ow[f].t != -1 { NoUserPage(S, ps, dirs, ow, pg, f); }
    }
    forall f | f in ow && ow[f].pg == pg && ow[f].d != -1 ensures 0 <= ow[f].d < S.n && ps[pg][ow[f].d].present && ps[pg][ow[f].d].addr == f {
      assert Held(S, ps, dirs, ow[f].pg, ow[f].d, ow[f].t) == f;
    }
  }

  lemma {:induction false} PlacedPresent(S: Shape, ps: seq<Page>, dirs: set<int>, pg: int, d: int, t: int)
    requires S.Ok() && 0 <= d < S.users && 0 <= t < S.n && Held(S, ps, dirs, pg, d, t) != 0
    ensures 0 <= d * S.n + t < S.users * S.n && Pt(S, ps, pg, d * S.n + t).present
  {
    DivStep(d, S.n, t);
    MulStrict(d, S.users, S.n);
  }

  /** Nothing is mapped, so no user page is owned. */
  lemma {:induction false} NoUserPage(S: Shape, ps: seq<Page>, dirs: set<int>, ow: Owners, pg: int, f: int)
    requires S.Ok() && OwnOk(S, ps, dirs, ow) && pg > 0 && f in ow && ow[f].pg == pg && forall v :: 0 <= v < S.users * S.n ==> !Pt(S, ps, pg, v).present
    ensures ow[f].t == -1
  {
    var d, t := ow[f].d, ow[f].t;
    assert IsPlace(S, pg, d, t) && Held(S, ps, dirs, pg, d, t) == f;
    hide Held, Pt;
    if t != -1 { PlacedPresent(S, ps, dirs, pg, d, t); }
  }

  lemma {:induction false} DirSize(S: Shape, dir: Page, o: Owners, pend0: set<int>, pend: set<int>, pg: int, i: nat)
    requires TablesLeft(S, dir, o, pend0, pend, pg, i)
    ensures |dir| == S.n
  {
  }

  lemma {:induction false} UpUsers(S: Shape, pgsize: nat)
    requires pgsize > 0
    ensures Up(S.users * S.n * pgsize, pgsize) == S.users * S.n && Up(0, pgsize) == 0
  {
    DivStep(S.users * S.n, pgsize, pgsize - 1);
    DivStep(0, pgsize, pgsize - 1);
  }

  lemma {:induction false} AllCleared(S: Shape, ps: seq<Page>, ps1: seq<Page>, pg: int, dirs: set<int>, ow: Owners, free: seq<int>, pend: set<int>, pool: set<int>,
                                      pgsize: nat)
    requires VmOk(S, ps1, dirs, ow, free, pend, pool) && pgsize > 0
    requires if 0 < S.users * S.n * pgsize then Cleared(S, ps, ps1, pg, Up(0, pgsize), Up(S.users * S.n * pgsize, pgsize)) else true
    ensures forall v :: 0 <= v < S.users * S.n ==> !Pt(S, ps1, pg, v).present
  {
    ShapeOk(S, ps1, dirs, ow, free, pend, pool);
    UpUsers(S, pgsize);
    hide VmOk, Pt, Up;
    MulMono(S.users, S.n, S.n);
    MulMono(1, pgsize, S.users * S.n);
  }

  lemma {:induction false} PagesGone(ow: Owners, pg: int)
    requires pg in ow && ow[pg].pg == pg
    ensures pg !in ow - PagesOf(ow, pg)
  {
  }

  /** Giving up user pages of pg does not touch what is not pg's. */
  lemma {:induction false} ShrunkOthers(ow: Owners, ps: seq<Page>, ow1: Owners, ps1: seq<Page>, pg: int)
    requires Shrunk(ow, ps, ow1, ps1, pg)
    ensures ow1 - PagesOf(ow1, pg) == ow - PagesOf(ow, pg) && SameData(ow1 - PagesOf(ow1, pg), ps, ps1)
  {
    var x, y := ow1 - PagesOf(ow1, pg), ow - PagesOf(ow, pg);
    forall f ensures f in x <==> f in y {
    }
    forall f | f in x ensures x[f] == y[f] {
    }
  }

  // ---------------------------------------------------------------- setupkvm

  /** A row of kmap: n pages from virtual page v on are mapped to pages from `frame` on. */
  datatype Seg = Seg(v: nat, n: nat, frame: int, perm: int)

  /** kmap is in the kernel's part of the address space and its rows do not overlap. */
  ghost predicate KmapOk(S: Shape, kmap: seq<Seg>) {
    && (forall i :: 0 <= i < |kmap| ==> kmap[i].n >= 1 && S.users * S.n <= kmap[i].v && kmap[i].v + kmap[i].n <= S.n * S.n)
    && (forall i, j :: 0 <= i < j < |kmap| ==> kmap[i].v + kmap[i].n <= kmap[j].v || kmap[j].v + kmap[j].n <= kmap[i].v)
  }

  predicate In(s: Seg, v: int) { s.v <= v < s.v + s.n }

  /** The entry that the first i rows of kmap give to page v. */
  ghost function KernelPte(kmap: seq<Seg>, i: nat, v: int): Pte
    requires i <= |kmap|
  {
    if i == 0 then ZERO
    else if In(kmap[i - 1], v) then Pte(true, kmap[i - 1].frame + (v - kmap[i - 1].v), kmap[i - 1].perm)
    else KernelPte(kmap, i - 1, v)
  }

  lemma {:induction false} KernelPteNone(S: Shape, kmap: seq<Seg>, i: nat, j: nat, v: int)
    requires KmapOk(S, kmap) && i <= j < |kmap| && In(kmap[j], v)
    ensures !KernelPte(kmap, i, v).present
  {
    if i > 0 { KernelPteNone(S, kmap, i - 1, j, v); }
  }

  lemma {:induction false} KernelPteUser(S: Shape, kmap: seq<Seg>, i: nat, v: int)
    requires KmapOk(S, kmap) && i <= |kmap| && v < S.users * S.n
    ensures !KernelPte(kmap, i, v).present
  {
    if i > 0 { KernelPteUser(S, kmap, i - 1, v); }
  }

  /** The first k pages of a row are mapped; the other entries are as before. */
  ghost predicate SegMapped(S: Shape, ps: seq<Page>, ps': seq<Page>, pg: int, s: Seg, k: int) {
    forall v :: 0 <= v < S.n * S.n ==>
      Pt(S, ps', pg, v) == if s.v <= v < s.v + k then Pte(true, s.frame + (v - s.v), s.perm) else Pt(S, ps, pg, v)
  }

  /** The entries of pg are those of the first i rows of kmap. */
  ghost predicate KernelMapped(S: Shape, ps: seq<Page>, pg: int, kmap: seq<Seg>, i: nat)
    requires i <= |kmap|
  {
    forall v :: 0 <= v < S.n * S.n ==> Pt(S, ps, pg, v) == KernelPte(kmap, i, v)
  }

  /** Every row of kmap is mapped page by page, to pages in the same order; nothing else is mapped. */
  ghost predicate RowsMapped(S: Shape, ps: seq<Page>, pg: int, kmap: seq<Seg>) {
    && (forall i, v :: 0 <= i < |kmap| && In(kmap[i], v) ==> Pt(S, ps, pg, v) == Pte(true, kmap[i].frame + (v - kmap[i].v), kmap[i].perm))
    && (forall v :: 0 <= v < S.n * S.n && (forall i :: 0 <= i < |kmap| ==> !In(kmap[i], v)) ==> !Pt(S, ps, pg, v).present)
  }

  lemma {:induction false} RowPte(S: Shape, kmap: seq<Seg>, n: nat, i: nat, v: int)
    requires KmapOk(S, kmap) && i < n <= |kmap| && In(kmap[i], v)
    ensures KernelPte(kmap, n, v) == Pte(true, kmap[i].frame + (v - kmap[i].v), kmap[i].perm)
  {
    if n > i + 1 { RowPte(S, kmap, n - 1, i, v); }
  }

  lemma {:induction false} NoRowPte(kmap: seq<Seg>, n: nat, v: int)
    requires n <= |kmap| && forall i :: 0 <= i < |kmap| ==> !In(kmap[i], v)
    ensures !KernelPte(kmap, n, v).present
  {
    if n > 0 { NoRowPte(kmap, n - 1, v); }
  }

  lemma {:induction false} KernelRows(S: Shape, ps: seq<Page>, pg: int, kmap: seq<Seg>)
    requires S.Ok() && KmapOk(S, kmap) && KernelMapped(S, ps, pg, kmap, |kmap|)
    ensures RowsMapped(S, ps, pg, kmap)
  {
    UsersAll(S);
    forall i, v | 0 <= i < |kmap| && In(kmap[i], v) ensures Pt(S, ps, pg, v) == Pte(true, kmap[i].frame + (v - kmap[i].v), kmap[i].perm) {
      hide Pt;
      RowPte(S, kmap, |kmap|, i, v);
    }
    forall v | 0 <= v < S.n * S.n && (forall i :: 0 <= i < |kmap| ==> !In(kmap[i], v)) ensures !Pt(S, ps, pg, v).present {
      hide Pt;
      NoRowPte(kmap, |kmap|, v);
    }
  }

  lemma {:induction false} KernelMore(S: Shape, ps: seq<Page>, ps': seq<Page>, pg: int, kmap: seq<Seg>, i: nat)
    requires i < |kmap| && KernelMapped(S, ps, pg, kmap, i) && SegMapped(S, ps, ps', pg, kmap[i], kmap[i].n)
    ensures KernelMapped(S, ps', pg, kmap, i + 1)
  {
    hide Pt;
  }

  lemma {:induction false} SegFree(S: Shape, ps: seq<Page>, pg: int, kmap: seq<Seg>, i: nat)
    requires i < |kmap| && KmapOk(S, kmap) && KernelMapped(S, ps, pg, kmap, i)
    ensures forall v :: In(kmap[i], v) ==> !Pt(S, ps, pg, v).present
  {
    hide Pt;
    forall v | In(kmap[i], v) ensures !Pt(S, ps, pg, v).present {
      KernelPteNone(S, kmap, i, i, v);
    }
  }

  lemma {:induction false} KernelPage(S: Shape, v: nat)
    requires S.n > 0 && S.users * S.n <= v
    ensures v / S.n >= S.users
  {
    DivBounds(v, S.n);
    MulStrict(v / S.n, S.users, S.n);
  }

  /** A directory that is new has no pages but those it was given. */
  lemma {:induction false} NewOnly(S: Shape, ps: seq<Page>, dirs: set<int>, ow: Owners, free: seq<int>, pend: set<int>, pool: set<int>,
                                   ow1: Owners, ps1: seq<Page>, pg: int)
    requires VmOk(S, ps, dirs, ow, free, pend, pool) && pg !in dirs && pg > 0 && Grew(ow, ps, ow1, ps1, pg)
    ensures ow1 - PagesOf(ow1, pg) == ow && SameData(ow, ps, ps1)
  {
    forall f | f in ow ensures ow[f].pg != pg {
      assert ow[f].pg == pg ==> Held(S, ps, dirs, ow[f].pg, ow[f].d, ow[f].t) == 0;
    }
    hide VmOk;
    var x := ow1 - PagesOf(ow1, pg);
    forall f ensures f in x <==> f in ow {
    }
    forall f | f in x ensures x[f] == ow[f] {
    }
  }

  lemma {:induction false} SameDataTrans(ow: Owners, ps: seq<Page>, ps1: seq<Page>, ps2: seq<Page>)
    requires SameData(ow, ps, ps1) && SameData(ow, ps1, ps2)
    ensures SameData(ow, ps, ps2)
  {
  }

  lemma {:induction false} NewDirView(S: Shape, ps: seq<Page>, ow: Owners, pg: int)
    requires 0 < pg < |ps| && pg !in ow && (forall f :: f in ow ==> 0 <= f < |ps|)
    ensures var ps' := ps[pg := ZeroPage(S.n)];
            Grew(ow, ps, ow[pg := Place(pg, -1, -1)], ps', pg) && forall v :: 0 <= v < S.n * S.n ==> Pt(S, ps', pg, v) == ZERO
  {
  }

  lemma {:induction false} KernelStart(S: Shape, ps: seq<Page>, pg: int, kmap: seq<Seg>)
    requires forall v :: 0 <= v < S.n * S.n ==> Pt(S, ps, pg, v) == ZERO
    ensures KernelMapped(S, ps, pg, kmap, 0)
  {
    hide Pt;
  }

  lemma {:induction false} OwnedIn(S: Shape, ps: seq<Page>, dirs: set<int>, ow: Owners, free: seq<int>, pend: set<int>, pool: set<int>)
    requires VmOk(S, ps, dirs, ow, free, pend, pool)
    ensures forall f :: f in ow ==> 0 < f < |ps| && f in pool
  {
    hide Held;
  }

  // ---------------------------------------------------------------- allocuvm

  /** Page v is mapped to a zeroed page of its own, for the user to read and write. */
  ghost predicate Fresh(S: Shape, ps: seq<Page>, ow: Owners, pg: int, v: int) {
    var e := Pt(S, ps, pg, v);
    && e.present && e.flags == 6 && e.addr in ow && ow[e.addr].pg == pg && ow[e.addr].t != -1 && 0 <= e.addr < |ps| && ps[e.addr] == ZeroPage(S.n)
  }

  ghost predicate Extended(S: Shape, ps: seq<Page>, ow': Owners, ps': seq<Page>, pg: int, lo: int, hi: int) {
    forall v :: 0 <= v < S.n * S.n ==> if lo <= v < hi then Fresh(S, ps', ow', pg, v) else Pt(S, ps', pg, v) == Pt(S, ps, pg, v)
  }

  lemma {:induction false} ExtendedMore(S: Shape, ps: seq<Page>, ow1: Owners, ps1: seq<Page>, ow2: Owners, ps2: seq<Page>, pg: int, lo: int, a: int)
    requires Extended(S, ps, ow1, ps1, pg, lo, a) && Grew(ow1, ps1, ow2, ps2, pg) && lo <= a && Fresh(S, ps2, ow2, pg, a)
    requires forall v :: 0 <= v < S.n * S.n && v != a ==> Pt(S, ps2, pg, v) == Pt(S, ps1, pg, v)
    ensures Extended(S, ps, ow2, ps2, pg, lo, a + 1)
  {
    hide Pt;
    forall v | 0 <= v < S.n * S.n && lo <= v < a ensures Fresh(S, ps2, ow2, pg, v) {
      assert Fresh(S, ps1, ow1, pg, v);
    }
  }

  ghost predicate Unmapped(S: Shape, ps: seq<Page>, pg: int, lo: int, hi: int) {
    forall v :: 0 <= v < S.n * S.n && lo <= v < hi ==> !Pt(S, ps, pg, v).present
  }

  /** The same pages are mapped, to the same pages and with the same flags. */
  ghost predicate SameMappings(S: Shape, ps: seq<Page>, ps': seq<Page>, pg: int) {
    forall v :: 0 <= v < S.n * S.n ==> if Pt(S, ps, pg, v).present then Pt(S, ps', pg, v) == Pt(S, ps, pg, v) else !Pt(S, ps', pg, v).present
  }

  /** allocuvm() gave up: what deallocuvm() frees is what allocuvm() had mapped. */
  lemma {:induction false} RolledBack(S: Shape, ps: seq<Page>, ow1: Owners, ps1: seq<Page>, ps2: seq<Page>, pg: int, lo: int, a: int, hi: int)
    requires Extended(S, ps, ow1, ps1, pg, lo, a) && Cleared(S, ps1, ps2, pg, lo, hi) && lo <= a <= hi
    ensures Cleared(S, ps, ps2, pg, lo, hi) && (Unmapped(S, ps, pg, lo, hi) ==> SameMappings(S, ps, ps2, pg))
  {
    hide Pt, Fresh;
  }

  /** A user page that is still mapped is still owned. */
  lemma {:induction false} StillOwned(S: Shape, ps: seq<Page>, dirs: set<int>, ow: Owners, free: seq<int>, pend: set<int>, pool: set<int>,
                                      ps2: seq<Page>, dirs2: set<int>, ow2: Owners, free2: seq<int>, pend2: set<int>, pg: int, f: int)
    requires VmOk(S, ps, dirs, ow, free, pend, pool) && VmOk(S, ps2, dirs2, ow2, free2, pend2, pool) && SameMappings(S, ps, ps2, pg) && pg in dirs && pg in dirs2
    requires f in ow && ow[f].pg == pg && ow[f].t != -1
    ensures f in ow2
  {
    var d, t := ow[f].d, ow[f].t;
    DirsIn(S, ps, dirs, ow, free, pend, pool);
    assert pg > 0 && IsPlace(S, pg, d, t) && Held(S, ps, dirs, pg, d, t) == f;
    PlacedPresent(S, ps, dirs, pg, d, t);
    UsersBelow(S, d, t);
    assert Pt(S, ps2, pg, d * S.n + t) == Pt(S, ps, pg, d * S.n + t);
    DivStep(d, S.n, t);
    DirsIn(S, ps2, dirs2, ow2, free2, pend2, pool);
    assert Held(S, ps2, dirs2, pg, d, t) == f;
  }

  lemma {:induction false} UsersBelow(S: Shape, d: nat, t: nat)
    requires S.Ok() && d < S.users && t < S.n
    ensures d * S.n + t < S.users * S.n <= S.n * S.n
  {
    MulStrict(d, S.users, S.n);
    MulMono(S.users, S.n, S.n);
  }

  lemma {:induction false} GrewShrunk(S: Shape, ps: seq<Page>, dirs: set<int>, ow: Owners, free: seq<int>, pend: set<int>, pool: set<int>,
                                      ow1: Owners, ps1: seq<Page>, ps2: seq<Page>, dirs2: set<int>, ow2: Owners, free2: seq<int>, pend2: set<int>, pg: int)
    requires VmOk(S, ps, dirs, ow, free, pend, pool) && VmOk(S, ps2, dirs2, ow2, free2, pend2, pool) && SameMappings(S, ps, ps2, pg) && pg in dirs && pg in dirs2
    requires Grew(ow, ps, ow1, ps1, pg) && Shrunk(ow1, ps1, ow2, ps2, pg)
    ensures Grew(ow, ps, ow2, ps2, pg)
  {
    hide VmOk, SameMappings;
    forall f | f in ow ensures f in ow2 {
      if ow[f].pg == pg && ow[f].t != -1 { StillOwned(S, ps, dirs, ow, free, pend, pool, ps2, dirs2, ow2, free2, pend2, pg, f); }
    }
  }

  lemma {:induction false} UsersAll(S: Shape)
    requires S.Ok()
    ensures 0 <= S.users * S.n <= S.n * S.n
  {
    MulMono(S.users, S.n, S.n);
  }

  lemma {:induction false} UsersFit(S: Shape, a: nat)
    requires S.Ok() && a < S.users * S.n
    ensures a < S.n * S.n && 0 <= a / S.n < S.users
  {
    MulMono(S.users, S.n, S.n);
    DivBounds(a, S.n);
    DivBelow(a / S.n, S.n, S.users, a);
  }

  lemma {:induction false} NoZero(S: Shape, ps: seq<Page>, dirs: set<int>, ow: Owners, free: seq<int>, pend: set<int>, pool: set<int>)
    requires VmOk(S, ps, dirs, ow, free, pend, pool)
    ensures 0 !in pend
  {
    hide OwnOk;
  }

  lemma {:induction false} ExtendedSame(S: Shape, ps: seq<Page>, ow: Owners, ps1: seq<Page>, ps2: seq<Page>, pg: int, lo: int, a: int)
    requires Extended(S, ps, ow, ps1, pg, lo, a) && Grew(ow, ps1, ow, ps2, pg)
    requires forall v :: 0 <= v < S.n * S.n ==> Pt(S, ps2, pg, v) == Pt(S, ps1, pg, v)
    ensures Extended(S, ps, ow, ps2, pg, lo, a)
  {
    hide Pt;
    forall v | 0 <= v < S.n * S.n && lo <= v < a ensures Fresh(S, ps2, ow, pg, v) {
      assert Fresh(S, ps1, ow, pg, v);
    }
  }

  lemma {:induction false} ExtendedNone(S: Shape, ps: seq<Page>, ow: Owners, pg: int, lo: int)
    ensures Extended(S, ps, ow, ps, pg, lo, lo)
  {
    hide Pt;
  }

  lemma {:induction false} FreshAt(S: Shape, ps: seq<Page>, ow: Owners, pg: int, v: int, f: int)
    requires Pt(S, ps, pg, v) == Pte(true, f, 6) && f in ow && ow[f].pg == pg && ow[f].t != -1 && 0 <= f < |ps| && ps[f] == ZeroPage(S.n)
    ensures Fresh(S, ps, ow, pg, v)
  {
    hide Pt;
  }

  lemma {:induction false} StillThere(S: Shape, ps: seq<Page>, ow1: Owners, ps1: seq<Page>, pg: int, lo: int, a: int)
    requires Extended(S, ps, ow1, ps1, pg, lo, a) && 0 <= lo <= a < S.n * S.n
    ensures Pt(S, ps1, pg, a) == Pt(S, ps, pg, a)
  {
    hide Pt, Fresh;
  }

  /** The first page from lo to hi that is mapped, or hi. */
  ghost function FirstMapped(S: Shape, ps: seq<Page>, pg: int, lo: int, hi: int): (m: int)
    requires lo <= hi
    ensures lo <= m <= hi
    decreases hi - lo
  {
    if lo == hi || Pt(S, ps, pg, lo).present then lo else FirstMapped(S, ps, pg, lo + 1, hi)
  }

  lemma {:induction false} FirstMappedNext(S: Shape, ps: seq<Page>, pg: int, lo: int, hi: int)
    requires lo < hi
    ensures FirstMapped(S, ps, pg, lo, hi) == if Pt(S, ps, pg, lo).present then lo else FirstMapped(S, ps, pg, lo + 1, hi)
  {
  }

  lemma {:induction false} FirstMappedIs(S: Shape, ps: seq<Page>, pg: int, lo: int, hi: int)
    requires 0 <= lo <= hi <= S.n * S.n
    ensures FirstMapped(S, ps, pg, lo, hi) == hi <==> Unmapped(S, ps, pg, lo, hi)
    decreases hi - lo
  {
    hide Pt;
    if lo < hi { FirstMappedIs(S, ps, pg, lo + 1, hi); }
  }

  lemma {:induction false} ClearedTrans(S: Shape, ps: seq<Page>, ps1: seq<Page>, ps2: seq<Page>, pg: int, lo: int, hi: int)
    requires Cleared(S, ps, ps1, pg, lo, hi) && forall v :: 0 <= v < S.n * S.n ==> Pt(S, ps2, pg, v) == Pt(S, ps1, pg, v)
    ensures Cleared(S, ps, ps2, pg, lo, hi)
  {
    hide Pt;
  }

  lemma {:induction false} MappingsTrans(S: Shape, ps: seq<Page>, ps1: seq<Page>, ps2: seq<Page>, pg: int)
    requires SameMappings(S, ps, ps1, pg) && forall v :: 0 <= v < S.n * S.n ==> Pt(S, ps2, pg, v) == Pt(S, ps1, pg, v)
    ensures SameMappings(S, ps, ps2, pg)
  {
    hide Pt;
  }

  lemma {:induction false} SizeGrows(oldsz: nat, newsz: nat, pgsize: nat)
    requires pgsize > 0 && Up(oldsz, pgsize) < Up(newsz, pgsize)
    ensures oldsz < newsz
  {
    hide Up;
    if newsz <= oldsz { UpMono(newsz, oldsz, pgsize); }
  }

  // ---------------------------------------------------------------- copyuvm

  /** Page v of dg is mapped like page v of pg, to another page with the same contents. */
  ghost predicate Copied(S: Shape, ps: seq<Page>, ow: Owners, pg: int, dg: int, v: int) {
    var e, c := Pt(S, ps, pg, v), Pt(S, ps, dg, v);
    && e.present && c.present && c.flags == e.flags && 0 <= e.addr < |ps| && 0 <= c.addr < |ps| && ps[c.addr] == ps[e.addr]
    && e.addr in ow && ow[e.addr].pg == pg && ow[e.addr].t != -1 && c.addr in ow && ow[c.addr].pg == dg && ow[c.addr].t != -1
  }

  /** The first hi pages are copied; the others are as in the kernel's mappings. */
  ghost predicate CopiedTo(S: Shape, ps: seq<Page>, ow: Owners, pg: int, dg: int, kmap: seq<Seg>, hi: int) {
    forall v :: 0 <= v < S.n * S.n ==> if v < hi then Copied(S, ps, ow, pg, dg, v) else Pt(S, ps, dg, v) == KernelPte(kmap, |kmap|, v)
  }

  /** Changes to page table dg are not seen through pg. */
  lemma {:induction false} PtOther(S: Shape, ps: seq<Page>, dirs: set<int>, ow: Owners, free: seq<int>, pend: set<int>, pool: set<int>,
                                   ow': Owners, ps': seq<Page>, pg: int, dg: int)
    requires VmOk(S, ps, dirs, ow, free, pend, pool) && pg in dirs && pg != dg && Grew(ow, ps, ow', ps', dg)
    ensures forall v :: 0 <= v < S.n * S.n ==> Pt(S, ps', pg, v) == Pt(S, ps, pg, v)
  {
    forall v | 0 <= v < S.n * S.n ensures Pt(S, ps', pg, v) == Pt(S, ps, pg, v) {
      var d, t := v / S.n, v % S.n;
      PtSplit(S, ps, pg, v, d, t);
      TableAt(S, ps, dirs, ow, free, pend, pool, pg, d);
    }
  }

  /** A user page that is mapped is owned. */
  lemma {:induction false} MappedOwned(S: Shape, ps: seq<Page>, dirs: set<int>, ow: Owners, free: seq<int>, pend: set<int>, pool: set<int>, pg: int, v: nat)
    requires VmOk(S, ps, dirs, ow, free, pend, pool) && pg in dirs && v < S.users * S.n && Pt(S, ps, pg, v).present
    ensures var f := Pt(S, ps, pg, v).addr; f in ow && ow[f] == Place(pg, v / S.n, v % S.n) && v % S.n != -1 && 0 < f < |ps| && |ps[f]| == S.n
  {
    UsersFit(S, v);
    var d, t := v / S.n, v % S.n;
    PtSplit(S, ps, pg, v, d, t);
    DirsIn(S, ps, dirs, ow, free, pend, pool);
    assert IsPlace(S, pg, d, t) && Held(S, ps, dirs, pg, d, t) == Entry(PteAt(S, ps, pg, d, t));
  }

  lemma {:induction false} CopiedMore(S: Shape, ps1: seq<Page>, ow1: Owners, ps2: seq<Page>, ow2: Owners, pg: int, dg: int, kmap: seq<Seg>, a: nat)
    requires CopiedTo(S, ps1, ow1, pg, dg, kmap, a) && Grew(ow1, ps1, ow2, ps2, dg) && Copied(S, ps2, ow2, pg, dg, a) && pg != dg
    requires forall v :: 0 <= v < S.n * S.n ==> Pt(S, ps2, pg, v) == Pt(S, ps1, pg, v)
    requires forall v :: 0 <= v < S.n * S.n && v != a ==> Pt(S, ps2, dg, v) == Pt(S, ps1, dg, v)
    ensures CopiedTo(S, ps2, ow2, pg, dg, kmap, a + 1)
  {
    hide Pt, KernelPte;
    forall v | 0 <= v < S.n * S.n && v < a ensures Copied(S, ps2, ow2, pg, dg, v) {
      assert Copied(S, ps1, ow1, pg, dg, v);
    }
  }

  lemma {:induction false} CopiedSame(S: Shape, ps1: seq<Page>, ps2: seq<Page>, ow: Owners, pg: int, dg: int, kmap: seq<Seg>, a: nat)
    requires CopiedTo(S, ps1, ow, pg, dg, kmap, a) && Grew(ow, ps1, ow, ps2, dg) && pg != dg
    requires forall v :: 0 <= v < S.n * S.n ==> Pt(S, ps2, pg, v) == Pt(S, ps1, pg, v) && Pt(S, ps2, dg, v) == Pt(S, ps1, dg, v)
    ensures CopiedTo(S, ps2, ow, pg, dg, kmap, a)
  {
    hide Pt, KernelPte;
    forall v | 0 <= v < S.n * S.n && v < a ensures Copied(S, ps2, ow, pg, dg, v) {
      assert Copied(S, ps1, ow, pg, dg, v);
    }
  }

  lemma {:induction false} CopiedStart(S: Shape, ps: seq<Page>, ow: Owners, pg: int, dg: int, kmap: seq<Seg>)
    requires KernelMapped(S, ps, dg, kmap, |kmap|)
    ensures CopiedTo(S, ps, ow, pg, dg, kmap, 0)
  {
    hide Pt, KernelPte;
  }

  lemma {:induction false} NotYetCopied(S: Shape, ps: seq<Page>, ow: Owners, pg: int, dg: int, kmap: seq<Seg>, a: nat)
    requires CopiedTo(S, ps, ow, pg, dg, kmap, a) && KmapOk(S, kmap) && a < S.users * S.n && a < S.n * S.n
    ensures !Pt(S, ps, dg, a).present
  {
    hide Pt;
    KernelPteUser(S, kmap, |kmap|, a);
  }

  lemma {:induction false} CopiedAt(S: Shape, ps: seq<Page>, ow: Owners, pg: int, dg: int, v: int, f: int, c: int, flags: int)
    requires Pt(S, ps, pg, v) == Pte(true, f, flags) && Pt(S, ps, dg, v) == Pte(true, c, flags)
    requires 0 <= f < |ps| && 0 <= c < |ps| && ps[c] == ps[f] && f in ow && ow[f].pg == pg && ow[f].t != -1 && c in ow && ow[c].pg == dg && ow[c].t != -1
    ensures Copied(S, ps, ow, pg, dg, v)
  {
    hide Pt;
  }

  lemma {:induction false} OwnedSame(ow: Owners, ps: seq<Page>, ow': Owners, ps': seq<Page>, dg: int, f: int)
    requires Grew(ow, ps, ow', ps', dg) && f in ow && ow[f].pg != dg
    ensures f in ow' && ow'[f] == ow[f] && 0 <= f < |ps| == |ps'| && ps'[f] == ps[f]
  {
  }

  lemma {:induction false} Restore(S: Shape, ps0: seq<Page>, ps1: seq<Page>, dirs: set<int>, ow: Owners, free: seq<int>, pend: set<int>, pool: set<int>,
                                   pg: int, dg: int, mem: int, x: Page)
    requires VmOk(S, ps1, dirs, ow, free, pend, pool) && pg in dirs && dg in dirs && mem in pend && 0 <= mem < |ps1|
    requires forall v :: 0 <= v < S.n * S.n ==> Pt(S, ps1, pg, v) == Pt(S, ps0, pg, v)
    ensures Grew(ow, ps1, ow, ps1[mem := x], dg)
    ensures forall v :: 0 <= v < S.n * S.n ==> Pt(S, ps1[mem := x], pg, v) == Pt(S, ps0, pg, v)
  {
    hide Pt;
    PendingView(S, ps1, dirs, ow, free, pend, pool, dg, mem, x);
    PendingView(S, ps1, dirs, ow, free, pend, pool, pg, mem, x);
    ShapeOk(S, ps1, dirs, ow, free, pend, pool);
    PtBut(S, ps1, ps1[mem := x], pg, 0, -1, -1);
  }

  /** Pages that copyuvm() takes for hi pages: the directory, the kernel's tables, the copies and the tables for them. */
  ghost function CopyPages(S: Shape, kmap: seq<Seg>, hi: nat): nat {
    1 + |KernelDirs(S, kmap, |kmap|)| + hi + NewTables(S, KernelDirs(S, kmap, |kmap|), 0, hi)
  }

  /** A new page table | no memory | a page below sz is not mapped. */
  datatype Copy = NewSpace(dg: int) | NoCopy | CopyPanic

  // ---------------------------------------------------------------- how many pages an operation takes

  /** The entries of directory pg that have a table. */
  ghost function TablesIn(S: Shape, ps: seq<Page>, pg: int): set<int> {
    set d | d in UpTo(S.n) && 0 <= pg < |ps| && d < |ps[pg]| && ps[pg][d].present
  }

  /** The directory entries of the virtual pages from a to hi. */
  ghost function DirsOf(S: Shape, a: nat, hi: nat): set<int>
    decreases hi - a
  {
    if a >= hi || S.n == 0 then {} else {a / S.n} + DirsOf(S, a + 1, hi)
  }

  /** Tables that mapping the virtual pages from a to hi needs, when those in `have` are there. */
  ghost function NewTables(S: Shape, have: set<int>, a: nat, hi: nat): nat {
    |DirsOf(S, a, hi) - have|
  }

  /** The directory entries that the first i rows of kmap use. */
  ghost function KernelDirs(S: Shape, kmap: seq<Seg>, i: nat): set<int>
    requires i <= |kmap|
  {
    if i == 0 then {} else KernelDirs(S, kmap, i - 1) + DirsOf(S, kmap[i - 1].v, kmap[i - 1].v + kmap[i - 1].n)
  }

  lemma {:induction false} KernelDirsGrow(S: Shape, kmap: seq<Seg>, i: nat, j: nat)
    requires i <= j <= |kmap|
    ensures KernelDirs(S, kmap, i) <= KernelDirs(S, kmap, j) && |KernelDirs(S, kmap, i)| <= |KernelDirs(S, kmap, j)|
    decreases j - i
  {
    hide DirsOf;
    if i < j { KernelDirsGrow(S, kmap, i, j - 1); }
    SubsetCard(KernelDirs(S, kmap, i), KernelDirs(S, kmap, j));
  }

  lemma {:induction false} KernelDirsStep(S: Shape, kmap: seq<Seg>, i: nat)
    requires i < |kmap|
    ensures KernelDirs(S, kmap, i + 1) == KernelDirs(S, kmap, i) + DirsOf(S, kmap[i].v, kmap[i].v + kmap[i].n)
    ensures |KernelDirs(S, kmap, i + 1)| == |KernelDirs(S, kmap, i)| + NewTables(S, KernelDirs(S, kmap, i), kmap[i].v, kmap[i].v + kmap[i].n)
  {
    var x, y := KernelDirs(S, kmap, i), DirsOf(S, kmap[i].v, kmap[i].v + kmap[i].n);
    assert KernelDirs(S, kmap, i + 1) == x + (y - x);
  }

  lemma {:induction false} NoKernelDirs(S: Shape, kmap: seq<Seg>)
    ensures KernelDirs(S, kmap, 0) == {}
  {
  }

  lemma {:induction false} NoTables(S: Shape, ps: seq<Page>, pg: int)
    requires 0 <= pg < |ps| && ps[pg] == ZeroPage(S.n)
    ensures TablesIn(S, ps, pg) == {}
  {
  }

  lemma {:induction false} NoNewTables(S: Shape, have: set<int>, a: nat)
    ensures NewTables(S, have, a, a) == 0
  {
  }

  lemma {:induction false} DirsStep(S: Shape, a: nat, hi: nat)
    requires a < hi && S.n > 0
    ensures DirsOf(S, a, hi) == {a / S.n} + DirsOf(S, a + 1, hi) && DirsOf(S, hi, hi) == {}
  {
  }

  lemma {:induction false} TablesSame(S: Shape, ps: seq<Page>, ps': seq<Page>, pg: int)
    requires 0 <= pg < |ps| == |ps'| && ps'[pg] == ps[pg]
    ensures TablesIn(S, ps', pg) == TablesIn(S, ps, pg)
  {
  }

  lemma {:induction false} TablesMore(S: Shape, ps: seq<Page>, ps': seq<Page>, pg: int, d: int, e: Pte)
    requires 0 <= pg < |ps| == |ps'| && 0 <= d < S.n == |ps[pg]| && ps'[pg] == ps[pg][d := e] && e.present
    ensures TablesIn(S, ps', pg) == TablesIn(S, ps, pg) + {d}
  {
  }

  lemma {:induction false} TableIn(S: Shape, ps: seq<Page>, pg: int, d: int)
    requires 0 <= pg < |ps| && 0 <= d < S.n == |ps[pg]|
    ensures d in TablesIn(S, ps, pg) <==> ps[pg][d].present
  {
  }

  /** Mapping page a makes its table, if there was none, and leaves the rest to be made. */
  lemma {:induction false} NewTablesStep(S: Shape, have: set<int>, a: nat, hi: nat)
    requires S.n > 0 && a < hi
    ensures NewTables(S, have, a, hi) == (if a / S.n in have then 0 else 1) + NewTables(S, have + {a / S.n}, a + 1, hi)
  {
    var d := a / S.n;
    var x, y := DirsOf(S, a, hi) - have, DirsOf(S, a + 1, hi) - (have + {d});
    assert y == x - {d};
  }

  datatype Outcome = Done | NoMemory | Panic

  // ---------------------------------------------------------------- access through both levels

  const PTE_W := 2
  const PTE_U := 4

  predicate Writable(e: Pte) { e.present && e.flags / PTE_W % 2 == 1 }

  predicate ForUser(e: Pte) { e.present && e.flags / PTE_U % 2 == 1 }

  /** Every entry of a directory that is present lets the user read and write; so access is decided by the tables. */
  ghost predicate Open(ps: seq<Page>, dirs: set<int>) {
    forall pg, d :: pg in dirs && 0 <= pg < |ps| && 0 <= d < |ps[pg]| && ps[pg][d].present ==> Writable(ps[pg][d]) && ForUser(ps[pg][d])
  }

  /** The entry of the directory through which virtual page v is reached. */
  ghost function DirEntry(S: Shape, ps: seq<Page>, pg: int, v: int): Pte {
    if S.n > 0 && 0 <= pg < |ps| && 0 <= v / S.n < |ps[pg]| then ps[pg][v / S.n] else ZERO
  }

  /** The processor lets user code read, and write, virtual page v: both levels must. */
  ghost predicate UserReads(S: Shape, ps: seq<Page>, pg: int, v: int) { ForUser(DirEntry(S, ps, pg, v)) && ForUser(Pt(S, ps, pg, v)) }

  ghost predicate UserWrites(S: Shape, ps: seq<Page>, pg: int, v: int) {
    UserReads(S, ps, pg, v) && Writable(DirEntry(S, ps, pg, v)) && Writable(Pt(S, ps, pg, v))
  }

  lemma {:induction false} AccessIs(S: Shape, ps: seq<Page>, dirs: set<int>, pg: int, v: int)
    requires S.n > 0 && Open(ps, dirs) && pg in dirs
    ensures UserReads(S, ps, pg, v) <==> ForUser(Pt(S, ps, pg, v))
    ensures UserWrites(S, ps, pg, v) <==> ForUser(Pt(S, ps, pg, v)) && Writable(Pt(S, ps, pg, v))
  {
  }

  lemma {:induction false} FreshAccess(S: Shape, ps: seq<Page>, dirs: set<int>, ow: Owners, ps0: seq<Page>, pg: int, lo: int, hi: int)
    requires S.n > 0 && Open(ps, dirs) && pg in dirs && Extended(S, ps0, ow, ps, pg, lo, hi) && 0 <= lo && hi <= S.n * S.n
    ensures forall v :: lo <= v < hi ==> UserWrites(S, ps, pg, v)
  {
    hide Pt, Open, DirEntry;
    forall v | lo <= v < hi ensures UserWrites(S, ps, pg, v) {
      assert Fresh(S, ps, ow, pg, v);
      AccessIs(S, ps, dirs, pg, v);
    }
  }

  lemma {:induction false} CopiedAccess(S: Shape, ps: seq<Page>, dirs: set<int>, ow: Owners, pg: int, dg: int, kmap: seq<Seg>, hi: int)
    requires S.n > 0 && Open(ps, dirs) && pg in dirs && dg in dirs && CopiedTo(S, ps, ow, pg, dg, kmap, hi) && hi <= S.n * S.n
    ensures forall v :: 0 <= v < hi ==>
      (UserReads(S, ps, dg, v) <==> UserReads(S, ps, pg, v)) && (UserWrites(S, ps, dg, v) <==> UserWrites(S, ps, pg, v))
  {
    hide Pt, Open, DirEntry;
    forall v | 0 <= v < hi
      ensures (UserReads(S, ps, dg, v) <==> UserReads(S, ps, pg, v)) && (UserWrites(S, ps, dg, v) <==> UserWrites(S, ps, pg, v))
    {
      assert Copied(S, ps, ow, pg, dg, v);
      AccessIs(S, ps, dirs, pg, v);
      AccessIs(S, ps, dirs, dg, v);
    }
  }

  lemma {:induction false} OpenAt(ps: seq<Page>, dirs: set<int>, pg: int, d: int)
    requires Open(ps, dirs) && pg in dirs && 0 <= pg < |ps| && 0 <= d < |ps[pg]| && ps[pg][d].present
    ensures Writable(ps[pg][d]) && ForUser(ps[pg][d])
  {
  }

  lemma {:induction false} OpenWrite(ps: seq<Page>, dirs: set<int>, f: int, x: Page)
    requires Open(ps, dirs) && 0 <= f < |ps| && f !in dirs
    ensures Open(ps[f := x], dirs)
  {
  }

  lemma {:induction false} OpenEntry(ps: seq<Page>, dirs: set<int>, pg: int, d: int, e: Pte)
    requires Open(ps, dirs) && 0 <= pg < |ps| && 0 <= d < |ps[pg]| && Writable(e) && ForUser(e)
    ensures Open(ps[pg := ps[pg][d := e]], dirs)
  {
  }

  lemma {:induction false} OpenDirs(ps: seq<Page>, dirs: set<int>, pg: int, n: nat)
    requires Open(ps, dirs)
    ensures Open(ps, dirs - {pg}) && (0 <= pg < |ps| && ps[pg] == ZeroPage(n) ==> Open(ps, dirs + {pg}))
  {
  }

  lemma {:induction false} TableNotDir(S: Shape, ps: seq<Page>, dirs: set<int>, ow: Owners, free: seq<int>, pend: set<int>, pool: set<int>, pg: int, d: int)
    requires VmOk(S, ps, dirs, ow, free, pend, pool) && pg in dirs && 0 <= d < S.n && 0 < pg < |ps| && d < |ps[pg]| && ps[pg][d].present
    ensures ps[pg][d].addr !in dirs
  {
    TableAt(S, ps, dirs, ow, free, pend, pool, pg, d);
    PlacedNotDir(S, ps, dirs, ow, free, pend, pool, ps[pg][d].addr);
  }

  /** Tables and user pages are not directories. */
  lemma {:induction false} PlacedNotDir(S: Shape, ps: seq<Page>, dirs: set<int>, ow: Owners, free: seq<int>, pend: set<int>, pool: set<int>, f: int)
    requires VmOk(S, ps, dirs, ow, free, pend, pool) && (f in pend || (f in ow && ow[f].d != -1))
    ensures f !in dirs
  {
    DirsIn(S, ps, dirs, ow, free, pend, pool);
    if f in pend { NotDir(S, ps, dirs, ow, free, pend, pool, f); }
  }

  class PageMemory {
    const S: Shape
    const pgsize: nat
    const pages: array<Page>
    var free: seq<int>             // kmem.freelist
    ghost var dirs: set<int>       // the page directories there are
    ghost var ow: Owners
    ghost var pend: set<int>       // pages that came from kalloc() and are not yet in a place
    ghost const pool: set<int>     // all pages that kinit1() and kinit2() gave to the allocator

    ghost predicate Valid()
      reads this, pages
    {
      VmOk(S, pages[..], dirs, ow, free, pend, pool) && Open(pages[..], dirs)
    }

    /** kinit1() and kinit2(): every page that freerange() passes to kfree() is free, and there is no page table yet. */
    constructor (S: Shape, pgsize: nat, pages: array<Page>, free: seq<int>)
      requires S.Ok() && PagesOk(S, pages[..]) && Distinct(free) && forall f :: f in free ==> 0 < f < pages.Length
      ensures Valid() && this.S == S && this.pgsize == pgsize && this.pages == pages && this.free == free
      ensures dirs == {} && ow == map[] && pend == {} && pool == set f | f in free
    {
      this.S, this.pgsize, this.pages, this.free := S, pgsize, pages, free;
      dirs, ow, pend, pool := {}, map[], {}, set f | f in free;
    }

    /** kalloc(): a page of the free list, or 0. */
    method Kalloc() returns (f: int)
      requires Valid()
      modifies this`free, this`pend
      ensures Valid() && (f == 0 <==> old(free) == [])
      ensures f == 0 ==> free == old(free) && pend == old(pend)
      ensures f != 0 ==> free == old(free)[1..] && f == old(free)[0] && pend == old(pend) + {f} && 0 < f < pages.Length && f !in ow && f !in old(pend)
    {
      hide VmOk, Open;
      if free == [] { return 0; }
      TakePage(S, pages[..], dirs, ow, free, pend, pool);
      f := free[0];
      pend := pend + {f};
      free := free[1..];
    }

    /** kfree(). */
    method Kfree(f: int)
      requires Valid() && f in pend
      modifies this`free, this`pend, pages
      ensures Valid() && free == [f] + old(free) && pend == old(pend) - {f}
      ensures 0 < f < pages.Length && pages[..] == old(pages[..])[f := Junk(S.n)] && f !in ow
    {
      hide VmOk, Open;
      FreePage(S, pages[..], dirs, ow, free, pend, pool, f, Junk(S.n));
      PlacedNotDir(S, pages[..], dirs, ow, free, pend, pool, f);
      OpenWrite(pages[..], dirs, f, Junk(S.n));
      Push(f);
      pend := pend - {f};
    }

    /** walkpgdir(): the table for entry d of the directory, made if `alloc` and there is none; 0 if it cannot. */
    method Walk(pg: int, d: int, alloc: bool) returns (tab: int)
      requires Valid() && pg in dirs && 0 <= d < S.n
      modifies this`free, this`ow, this`pend, pages
      ensures Valid() && pend == old(pend) && 0 < pg < pages.Length && |pages[pg]| == S.n
      ensures tab == 0 <==> !old(pages[..])[pg][d].present && (!alloc || old(free) == [])
      ensures tab == 0 || old(pages[..])[pg][d].present ==> pages[..] == old(pages[..]) && ow == old(ow) && free == old(free)
      ensures tab != 0 ==> pages[pg][d].present && pages[pg][d].addr == tab && 0 < tab < pages.Length && |pages[tab]| == S.n
      ensures tab != 0 ==> Writable(pages[pg][d]) && ForUser(pages[pg][d])
      ensures SameBut(S, old(pages[..]), pages[..], pg, -1, -1) && Grew(old(ow), old(pages[..]), ow, pages[..], pg)
      ensures forall f :: f in old(pend) && 0 <= f < pages.Length ==> pages[f] == old(pages[f])
      ensures |free| == |old(free)| - if tab != 0 && !old(pages[..])[pg][d].present then 1 else 0
      ensures TablesIn(S, pages[..], pg) == if tab == 0 then TablesIn(S, old(pages[..]), pg) else TablesIn(S, old(pages[..]), pg) + {d}
    {
      hide VmOk, Open, PteAt, TablesIn;
      TableIn(S, pages[..], pg, d) by { TableAt(S, pages[..], dirs, ow, free, pend, pool, pg, d); }
      TableAt(S, pages[..], dirs, ow, free, pend, pool, pg, d);
      GrewRefl(S, pages[..], dirs, ow, free, pend, pool, pg);
      if pages[pg][d].present {
        OpenAt(pages[..], dirs, pg, d);
        tab := pages[pg][d].addr;
        assert TablesIn(S, pages[..], pg) + {d} == TablesIn(S, pages[..], pg);
      } else {
        if !alloc { return 0; }
        tab := Kalloc();
        if tab == 0 { return; }
        ghost var ps := pages[..];
        WritePage(S, ps, dirs, ow, free, pend, pool, tab, ZeroPage(S.n));
        PlacedNotDir(S, ps, dirs, ow, free, pend, pool, tab);
        OpenWrite(ps, dirs, tab, ZeroPage(S.n));
        pages[tab] := ZeroPage(S.n);
        PendingView(S, ps, dirs, ow, free, pend, pool, pg, tab, ZeroPage(S.n));
        ghost var ps1 := pages[..];
        NewTable(S, ps1, dirs, ow, free, pend, pool, pg, d, tab, 6);
        TableView(S, ps1, dirs, ow, free, pend, pool, pg, d, tab, 6);
        OpenEntry(ps1, dirs, pg, d, Pte(true, tab, 6));
        ghost var ow1 := ow;
        pages[pg] := pages[pg][d := Pte(true, tab, 6)];
        ow := ow[tab := Place(pg, d, -1)];
        pend := pend - {tab};
        GrewTrans(ow1, ps, ow1, ps1, ow, pages[..], pg);
        SameTrans(S, ps, ps1, pages[..], pg, -1, -1);
        TablesMore(S, ps, pages[..], pg, d, Pte(true, tab, 6));
      }
    }

    /** One iteration of mappages(): virtual page v gets page f, which is a page of `pend` if v is user memory. */
    method MapOne(pg: int, v: nat, f: int, perm: int) returns (r: Outcome)
      requires Valid() && pg in dirs && v < S.n * S.n && (v / S.n < S.users ==> f in pend)
      modifies this`free, this`ow, this`pend, pages
      ensures Valid() && 0 < pg < pages.Length
      ensures r == Panic <==> Pt(S, old(pages[..]), pg, v).present
      ensures r == NoMemory <==> v / S.n !in TablesIn(S, old(pages[..]), pg) && old(free) == []
      ensures r == Done ==> |free| == |old(free)| - if v / S.n in TablesIn(S, old(pages[..]), pg) then 0 else 1
      ensures r == Done ==> TablesIn(S, pages[..], pg) == TablesIn(S, old(pages[..]), pg) + {v / S.n}
      ensures r != Done ==> pages[..] == old(pages[..]) && ow == old(ow) && pend == old(pend) && free == old(free)
      ensures r == Done ==> Pt(S, pages[..], pg, v) == Pte(true, f, perm)
      ensures forall w :: 0 <= w < S.n * S.n && w != v ==> Pt(S, pages[..], pg, w) == Pt(S, old(pages[..]), pg, w)
      ensures Grew(old(ow), old(pages[..]), ow, pages[..], pg)
      ensures pend == if r == Done && v / S.n < S.users then old(pend) - {f} else old(pend)
      ensures r == Done && v / S.n < S.users ==> f in ow && ow[f] == Place(pg, v / S.n, v % S.n)
      ensures forall g :: g in old(pend) && 0 <= g < pages.Length ==> pages[g] == old(pages[g])
    {
      hide VmOk, Open, PteAt, Pt, Grew, SameBut, TablesIn;
      ghost var ps, ow0 := pages[..], ow;
      ShapeOk(S, ps, dirs, ow, free, pend, pool);
      var d, t := v / S.n, v % S.n;
      PtSplit(S, ps, pg, v, d, t);
      TableAt(S, ps, dirs, ow, free, pend, pool, pg, d);
      TableIn(S, ps, pg, d);
      GrewRefl(S, ps, dirs, ow, free, pend, pool, pg);
      var tab := Walk(pg, d, true);
      ghost var ps1, ow1 := pages[..], ow;
      PtBut(S, ps, ps1, pg, v, -1, -1);
      PtSplit(S, ps1, pg, v, d, t);
      if tab == 0 {
        NoTable(S, ps, pg, d, t);
        return NoMemory;
      }
      TableIn(S, ps1, pg, d);
      EntryView(S, ps1, dirs, ow, free, pend, pool, pg, d, t, Pte(true, f, perm));
      if pages[tab][t].present {
        WalkedPresent(S, ps, pg, d, t);
        return Panic;
      }
      if d < S.users {
        NewPage(S, ps1, dirs, ow, free, pend, pool, pg, d, t, f, perm);
      } else {
        KernelEntry(S, ps1, dirs, ow, free, pend, pool, pg, d, t, Pte(true, f, perm));
      }
      OwnedNotPending(S, ps1, dirs, ow, free, pend, pool, tab);
      EntryGrew(S, ps1, dirs, ow, free, pend, pool, pg, d, t, f, Pte(true, f, perm));
      TableNotDir(S, ps1, dirs, ow, free, pend, pool, pg, d);
      OpenWrite(ps1, dirs, tab, ps1[tab][t := Pte(true, f, perm)]);
      pages[tab] := pages[tab][t := Pte(true, f, perm)];
      if d < S.users {
        ow := ow[f := Place(pg, d, t)];
        pend := pend - {f};
      }
      TablesSame(S, ps1, pages[..], pg);
      PtBut(S, ps1, pages[..], pg, v, d, t);
      PtSplit(S, pages[..], pg, v, d, t);
      GrewTrans(ow0, ps, ow1, ps1, ow, pages[..], pg);
      r := Done;
    }

    /** The effect of kfree() on the page and the list. */
    method Push(f: int)
      requires 0 < f < pages.Length
      modifies this`free, pages
      ensures free == [f] + old(free) && pages[..] == old(pages[..])[f := Junk(S.n)]
    {
      pages[f] := Junk(S.n);
      free := [f] + free;
    }

    /** The loop of deallocuvm() at page a, whose entry is d, t. */
    method UnmapOne(pg: int, d: int, t: int)
      requires Valid() && pg in dirs && 0 <= d < S.users && 0 <= t < S.n
      requires 0 < pg < pages.Length && |pages[pg]| == S.n && pages[pg][d].present
      modifies this`free, this`ow, pages
      ensures Valid() && SameBut(S, old(pages[..]), pages[..], pg, d, t) && !PteAt(S, pages[..], pg, d, t).present
      ensures Shrunk(old(ow), old(pages[..]), ow, pages[..], pg)
      ensures forall g :: g in pend && 0 <= g < pages.Length ==> pages[g] == old(pages[g])
    {
      hide VmOk, Open, PteAt, SameBut, Shrunk, Junk;
      ghost var ps, ow0 := pages[..], ow;
      ShapeOk(S, ps, dirs, ow, free, pend, pool);
      TableAt(S, ps, dirs, ow, free, pend, pool, pg, d);
      var tab := pages[pg][d].addr;
      OwnedNotPending(S, ps, dirs, ow, free, pend, pool, tab);
      GrewRefl(S, ps, dirs, ow, free, pend, pool, pg);
      ShrunkRefl(S, ps, dirs, ow, free, pend, pool, pg);
      EntryIs(S, ps, pg, d, t);
      if pages[tab][t].present {
        GiveBack(S, ps, dirs, ow, free, pend, pool, pg, d, t, Junk(S.n));
        var f := pages[tab][t].addr;
        TableNotDir(S, ps, dirs, ow, free, pend, pool, pg, d);
        PlacedNotDir(S, ps, dirs, ow, free, pend, pool, f);
        OpenWrite(ps, dirs, f, Junk(S.n));
        Push(f);
        OpenWrite(pages[..], dirs, tab, pages[tab][t := ZERO]);
        pages[tab] := pages[tab][t := ZERO];
        ow := ow - {f};
      } else {
        ButMore(S, ps, ps, pg, d, t);
      }
    }

    /** One iteration of deallocuvm(). */
    method UnmapAt(pg: int, a: nat, ghost ps: seq<Page>, ghost ow0: Owners, ghost lo: nat, ghost hi: nat) returns (a': nat)
      requires Valid() && pg in dirs && lo <= a < hi <= S.users * S.n
      requires Shrunk(ow0, ps, ow, pages[..], pg) && Cleared(S, ps, pages[..], pg, lo, a)
      modifies this`free, this`ow, pages
      ensures Valid() && a < a' && Shrunk(ow0, ps, ow, pages[..], pg) && Cleared(S, ps, pages[..], pg, lo, if a' < hi then a' else hi)
      ensures forall g :: g in pend && 0 <= g < pages.Length ==> pages[g] == old(pages[g])
    {
      hide VmOk, Open, PteAt, SameBut, Shrunk, Cleared;
      ghost var ps1, ow1 := pages[..], ow;
      ShapeOk(S, ps1, dirs, ow, free, pend, pool);
      UserPageAt(S, hi, a);
      var d, t := a / S.n, a % S.n;
      TableAt(S, ps1, dirs, ow, free, pend, pool, pg, d);
      if !pages[pg][d].present {
        a' := (d + 1) * S.n - 1 + 1;
        ClearedSkip(S, ps, ps1, pg, lo, a, d, if a' < hi then a' else hi);
      } else {
        UnmapOne(pg, d, t);
        ShrunkTrans(ow0, ps, ow1, ps1, ow, pages[..], pg);
        ClearedOne(S, ps, ps1, pages[..], pg, lo, a, d, t);
        a' := a + 1;
      }
    }

    /** deallocuvm(): unmaps and frees the pages from newsz to oldsz, skipping what has no table; it misses none. */
    method Deallocuvm(pg: int, oldsz: nat, newsz: nat) returns (r: int)
      requires Valid() && pg in dirs && pgsize > 0 && Up(oldsz, pgsize) <= S.users * S.n
      modifies this`free, this`ow, pages
      ensures Valid() && Shrunk(old(ow), old(pages[..]), ow, pages[..], pg)
      ensures newsz >= oldsz ==> r == oldsz && pages[..] == old(pages[..]) && ow == old(ow) && free == old(free)
      ensures newsz < oldsz ==> r == newsz && Cleared(S, old(pages[..]), pages[..], pg, Up(newsz, pgsize), Up(oldsz, pgsize))
      ensures forall g :: g in pend && 0 <= g < pages.Length ==> pages[g] == old(pages[g])
    {
      hide VmOk, Open, Shrunk, Up, Cleared;
      ghost var ps, ow0 := pages[..], ow;
      ShrunkRefl(S, ps, dirs, ow, free, pend, pool, pg);
      if newsz >= oldsz { return oldsz; }
      ghost var lo, hi := Up(newsz, pgsize), Up(oldsz, pgsize);
      UpMono(newsz, oldsz, pgsize);
      ClearedNone(S, ps, pg, lo);
      var a := Up(newsz, pgsize);
      UpIff(oldsz, pgsize, a);
      while a * pgsize < oldsz
        invariant lo <= a && Valid() && (a * pgsize < oldsz <==> a < hi)
        invariant Shrunk(ow0, ps, ow, pages[..], pg) && Cleared(S, ps, pages[..], pg, lo, if a < hi then a else hi)
        invariant forall g :: g in pend && 0 <= g < pages.Length ==> pages[g] == old(pages[g])
        decreases hi - a
      {
        a := UnmapAt(pg, a, ps, ow0, lo, hi);
        UpIff(oldsz, pgsize, a);
      }
      r := newsz;
    }

    /** freevm()'s loop over the directory. */
    method FreeTables(pg: int, ghost o: Owners, ghost pend0: set<int>)
      requires Valid() && 0 < pg < pages.Length && pg !in ow && TablesLeft(S, pages[pg], o, pend0, pend, pg, 0)
      modifies this`free, this`pend, pages
      ensures Valid() && pg in pend && pg !in pend0 && pend - {pg} == pend0 && SameData(ow, old(pages[..]), pages[..])
      ensures forall g :: g in pend0 && 0 <= g < pages.Length ==> pages[g] == old(pages[g])
    {
      hide VmOk, Open, TablesLeft;
      var i := 0;
      while i < S.n
        invariant 0 <= i <= S.n && Valid() && pages[pg] == old(pages[pg]) && TablesLeft(S, pages[pg], o, pend0, pend, pg, i)
        invariant SameData(ow, old(pages[..]), pages[..])
        invariant forall g :: g in pend0 && 0 <= g < pages.Length ==> pages[g] == old(pages[g])
      {
        DirSize(S, pages[pg], o, pend0, pend, pg, i);
        TablesNext(S, pages[pg], o, pend0, pend, pg, i);
        if pages[pg][i].present { Kfree(pages[pg][i].addr); }
        i := i + 1;
      }
      TablesEnd(S, pages[pg], o, pend0, pend, pg);
    }

    /** freevm(): every page of the page table goes back to the pool; nothing else changes. */
    method Freevm(pg: int)
      requires Valid() && pg in dirs && pgsize > 0
      modifies this`free, this`ow, this`pend, this`dirs, pages
      ensures Valid() && dirs == old(dirs) - {pg} && ow == old(ow) - PagesOf(old(ow), pg) && pend == old(pend)
      ensures SameData(ow, old(pages[..]), pages[..])
      ensures forall g :: g in pend && 0 <= g < pages.Length ==> pages[g] == old(pages[g])
    {
      hide VmOk, Open, Shrunk, Up, Cleared, TablesLeft, PagesOf;
      ghost var ps, ow0 := pages[..], ow;
      UpUsers(S, pgsize);
      var r := Deallocuvm(pg, S.users * S.n * pgsize, 0);
      ghost var ps1, ow1, pend0 := pages[..], ow, pend;
      AllCleared(S, ps, ps1, pg, dirs, ow, free, pend, pool, pgsize);
      ShrunkOthers(ow0, ps, ow1, ps1, pg);
      TablesStart(S, ps1, dirs, ow, free, pend, pool, pg);
      DropDir(S, ps1, dirs, ow, free, pend, pool, pg);
      OpenDirs(ps1, dirs, pg, 0);
      dirs := dirs - {pg};
      pend := pend + PagesOf(ow, pg);
      ow := ow - PagesOf(ow1, pg);
      PagesGone(ow1, pg);
      FreeTables(pg, ow1, pend0);
      Kfree(pg);
      assert pend == pend0;
    }

    /** mappages() for a row of kmap. */
    method MapKernel(pg: int, s: Seg) returns (r: Outcome)
      requires Valid() && pg in dirs && s.n >= 1 && S.users * S.n <= s.v && s.v + s.n <= S.n * S.n
      requires forall v :: In(s, v) ==> !Pt(S, pages[..], pg, v).present
      modifies this`free, this`ow, this`pend, pages
      ensures Valid() && pend == old(pend) && Grew(old(ow), old(pages[..]), ow, pages[..], pg) && r != Panic
      ensures r == NoMemory <==> |old(free)| < NewTables(S, TablesIn(S, old(pages[..]), pg), s.v, s.v + s.n)
      ensures r == Done ==> |free| == |old(free)| - NewTables(S, TablesIn(S, old(pages[..]), pg), s.v, s.v + s.n)
      ensures r == Done ==> TablesIn(S, pages[..], pg) == TablesIn(S, old(pages[..]), pg) + DirsOf(S, s.v, s.v + s.n)
      ensures r == Done ==> SegMapped(S, old(pages[..]), pages[..], pg, s, s.n)
      ensures forall g :: g in pend && 0 <= g < pages.Length ==> pages[g] == old(pages[g])
    {
      hide VmOk, Open, Pt, Grew, TablesIn, NewTables, DirsOf;
      ghost var ps, ow0, e := pages[..], ow, s.v + s.n;
      ghost var have := TablesIn(S, ps, pg);
      ShapeOk(S, ps, dirs, ow, free, pend, pool);
      GrewRefl(S, ps, dirs, ow, free, pend, pool, pg);
      var k := 0;
      while true
        invariant |free| + NewTables(S, have, s.v, e) == |old(free)| + NewTables(S, TablesIn(S, pages[..], pg), s.v + k, e)
        invariant TablesIn(S, pages[..], pg) + DirsOf(S, s.v + k, e) == have + DirsOf(S, s.v, e)
        invariant 0 <= k < s.n && Valid() && pend == old(pend) && Grew(ow0, ps, ow, pages[..], pg) && SegMapped(S, ps, pages[..], pg, s, k)
        invariant forall g :: g in pend && 0 <= g < pages.Length ==> pages[g] == old(pages[g])
        decreases s.n - k
      {
        ghost var ps1, ow1 := pages[..], ow;
        KernelPage(S, s.v + k);
        assert In(s, s.v + k);
        NewTablesStep(S, TablesIn(S, ps1, pg), s.v + k, e);
        DirsStep(S, s.v + k, e);
        r := MapOne(pg, s.v + k, s.frame + k, s.perm);
        GrewTrans(ow0, ps, ow1, ps1, ow, pages[..], pg);
        if r != Done { return; }
        assert SegMapped(S, ps, pages[..], pg, s, k + 1);
        if k == s.n - 1 {
          NoNewTables(S, TablesIn(S, pages[..], pg), e);
          break;
        }
        k := k + 1;
      }
    }

    /** The beginning of setupkvm(): a zeroed page becomes a directory; 0 if there is none. */
    method MakeDir() returns (pg: int)
      requires Valid()
      modifies this`free, this`ow, this`pend, this`dirs, pages
      ensures Valid() && pend == old(pend) && (pg == 0 <==> old(free) == [])
      ensures pg == 0 ==> dirs == old(dirs) && ow == old(ow) && pages[..] == old(pages[..])
      ensures pg != 0 ==> pg !in old(dirs) && 0 < pg < pages.Length && dirs == old(dirs) + {pg} && Grew(old(ow), old(pages[..]), ow, pages[..], pg)
      ensures pg != 0 ==> |free| == |old(free)| - 1 && pages[pg] == ZeroPage(S.n) && forall v :: 0 <= v < S.n * S.n ==> Pt(S, pages[..], pg, v) == ZERO
      ensures forall g :: g in pend && 0 <= g < pages.Length ==> pages[g] == old(pages[g])
    {
      hide VmOk, Open, Pt, Grew;
      ghost var ps := pages[..];
      pg := Kalloc();
      if pg == 0 { return; }
      WritePage(S, ps, dirs, ow, free, pend, pool, pg, ZeroPage(S.n));
      PlacedNotDir(S, ps, dirs, ow, free, pend, pool, pg);
      OpenWrite(ps, dirs, pg, ZeroPage(S.n));
      OpenDirs(ps[pg := ZeroPage(S.n)], dirs, pg, S.n);
      pages[pg] := ZeroPage(S.n);
      NewDir(S, pages[..], dirs, ow, free, pend, pool, pg);
      OwnedIn(S, ps, dirs, ow, free, pend, pool);
      NewDirView(S, ps, ow, pg);
      dirs := dirs + {pg};
      ow := ow[pg := Place(pg, -1, -1)];
      pend := pend - {pg};
    }

    /** setupkvm(): a new page table with the kernel's mappings and no others, or 0 with everything given back. */
    method Setupkvm(kmap: seq<Seg>) returns (pg: int)
      requires Valid() && KmapOk(S, kmap) && pgsize > 0
      modifies this`free, this`ow, this`pend, this`dirs, pages
      ensures Valid() && pend == old(pend)
      ensures pg == 0 ==> dirs == old(dirs) && ow == old(ow) && SameData(ow, old(pages[..]), pages[..])
      ensures pg != 0 ==> pg !in old(dirs) && pg > 0 && dirs == old(dirs) + {pg} && Grew(old(ow), old(pages[..]), ow, pages[..], pg)
      ensures pg != 0 ==> KernelMapped(S, pages[..], pg, kmap, |kmap|) && TablesIn(S, pages[..], pg) == KernelDirs(S, kmap, |kmap|)
      ensures pg != 0 ==> RowsMapped(S, pages[..], pg, kmap)
      ensures pg == 0 <==> |old(free)| < 1 + |KernelDirs(S, kmap, |kmap|)|
      ensures pg != 0 ==> |free| == |old(free)| - 1 - |KernelDirs(S, kmap, |kmap|)|
      ensures forall g :: g in pend && 0 <= g < pages.Length ==> pages[g] == old(pages[g])
    {
      hide VmOk, Open, Pt, Grew, KernelMapped, RowsMapped, SegMapped, PagesOf, TablesIn, NewTables, DirsOf, KernelDirs;
      ghost var ps, ow0, dirs0, free0, pend0 := pages[..], ow, dirs, free, pend;
      pg := MakeDir();
      if pg == 0 { return; }
      KernelStart(S, pages[..], pg, kmap);
      NoTables(S, pages[..], pg);
      NoKernelDirs(S, kmap);
      var i := 0;
      while i < |kmap|
        invariant 0 <= i <= |kmap| && Valid() && pend == pend0 && dirs == dirs0 + {pg}
        invariant Grew(ow0, ps, ow, pages[..], pg) && KernelMapped(S, pages[..], pg, kmap, i)
        invariant TablesIn(S, pages[..], pg) == KernelDirs(S, kmap, i) && |free| + 1 + |KernelDirs(S, kmap, i)| == |free0|
        invariant forall g :: g in pend && 0 <= g < pages.Length ==> pages[g] == old(pages[g])
      {
        ghost var ps1, ow1 := pages[..], ow;
        SegFree(S, ps1, pg, kmap, i);
        KernelDirsStep(S, kmap, i);
        KernelDirsGrow(S, kmap, i + 1, |kmap|);
        var r := MapKernel(pg, kmap[i]);
        GrewTrans(ow0, ps, ow1, ps1, ow, pages[..], pg);
        if r != Done {
          ghost var ps2, ow2 := pages[..], ow;
          NewOnly(S, ps, dirs0, ow0, free0, pend0, pool, ow2, ps2, pg);
          Freevm(pg);
          SameDataTrans(ow0, ps, ps2, pages[..]);
          assert dirs0 + {pg} - {pg} == dirs0;
          return 0;
        }
        KernelMore(S, ps1, pages[..], pg, kmap, i);
        i := i + 1;
      }
      ShapeOk(S, pages[..], dirs, ow, free, pend, pool);
      KernelRows(S, pages[..], pg, kmap);
    }

    /** One iteration of allocuvm(): a zeroed page for virtual page a. */
    method AllocOne(pg: int, a: nat, ghost ps: seq<Page>, ghost ow0: Owners, ghost lo: nat) returns (r: Outcome, mem: int)
      requires Valid() && pg in dirs && lo <= a < S.users * S.n
      requires Grew(ow0, ps, ow, pages[..], pg) && Extended(S, ps, ow, pages[..], pg, lo, a)
      modifies this`free, this`ow, this`pend, pages
      ensures Valid() && Grew(ow0, ps, ow, pages[..], pg)
      ensures Extended(S, ps, ow, pages[..], pg, lo, if r == Done then a + 1 else a)
      ensures r == Panic <==> Pt(S, old(pages[..]), pg, a).present && old(free) != []
      ensures r == Done <==> !Pt(S, old(pages[..]), pg, a).present && |old(free)| >= if a / S.n in TablesIn(S, old(pages[..]), pg) then 1 else 2
      ensures r == Done ==> |free| == |old(free)| - if a / S.n in TablesIn(S, old(pages[..]), pg) then 1 else 2
      ensures r == Done ==> pend == old(pend) && TablesIn(S, pages[..], pg) == TablesIn(S, old(pages[..]), pg) + {a / S.n}
      ensures r == NoMemory ==> mem !in old(pend) && pend == if mem == 0 then old(pend) else old(pend) + {mem}
      ensures forall g :: g in old(pend) && 0 <= g < pages.Length ==> pages[g] == old(pages[g])
    {
      hide VmOk, Open, Pt, Grew, Extended, PteAt, SameBut, TablesIn;
      ghost var ps0, pend0 := pages[..], pend;
      ShapeOk(S, ps0, dirs, ow, free, pend, pool);
      UsersFit(S, a);
      GrewRefl(S, ps0, dirs, ow, free, pend, pool, 0);
      NoZero(S, ps0, dirs, ow, free, pend, pool);
      mem := Kalloc();
      if mem == 0 { return NoMemory, 0; }
      WritePage(S, ps0, dirs, ow, free, pend, pool, mem, ZeroPage(S.n));
      PendingView(S, ps0, dirs, ow, free, pend, pool, pg, mem, ZeroPage(S.n));
      PlacedNotDir(S, ps0, dirs, ow, free, pend, pool, mem);
      OpenWrite(ps0, dirs, mem, ZeroPage(S.n));
      pages[mem] := ZeroPage(S.n);
      ghost var ps1, ow1 := pages[..], ow;
      PtBut(S, ps0, ps1, pg, a, -1, -1);
      TableAt(S, ps0, dirs, ow, free, pend, pool, pg, 0);
      TablesSame(S, ps0, ps1, pg);
      GrewTrans(ow0, ps, ow1, ps0, ow1, ps1, pg);
      ExtendedSame(S, ps, ow1, ps0, ps1, pg, lo, a);
      r := MapOne(pg, a, mem, 6);
      GrewTrans(ow0, ps, ow1, ps1, ow, pages[..], pg);
      if r != Done { return; }
      FreshAt(S, pages[..], ow, pg, a, mem);
      ExtendedMore(S, ps, ow1, ps1, ow, pages[..], pg, lo, a);
      assert pend0 + {mem} - {mem} == pend0;
    }

    /** allocuvm() gives up at page a: deallocuvm(), and kfree() of the page it has in its hands.  Pages that were mapped in the
        range before are gone as well. */
    method GiveUp(pg: int, oldsz: nat, newsz: nat, mem: int, ghost ps: seq<Page>, ghost dirs0: set<int>, ghost ow0: Owners, ghost free0: seq<int>,
                  ghost pend0: set<int>, ghost a: nat)
      requires Valid() && pg in dirs && dirs == dirs0 && pgsize > 0 && Up(oldsz, pgsize) <= a < Up(newsz, pgsize) <= S.users * S.n
      requires VmOk(S, ps, dirs0, ow0, free0, pend0, pool)
      requires Grew(ow0, ps, ow, pages[..], pg) && Extended(S, ps, ow, pages[..], pg, Up(oldsz, pgsize), a)
      requires mem !in pend0 && pend == if mem == 0 then pend0 else pend0 + {mem}
      modifies this`free, this`ow, this`pend, pages
      ensures Valid() && pend == pend0 && Cleared(S, ps, pages[..], pg, Up(oldsz, pgsize), Up(newsz, pgsize))
      ensures Unmapped(S, ps, pg, Up(oldsz, pgsize), Up(newsz, pgsize)) ==>
        Grew(ow0, ps, ow, pages[..], pg) && SameMappings(S, ps, pages[..], pg)
      ensures forall g :: g in pend && 0 <= g < pages.Length ==> pages[g] == old(pages[g])
    {
      hide VmOk, Open, Pt, Grew, Shrunk, Up, Extended, Cleared, Unmapped, SameMappings, SameBut;
      ghost var ps1, ow1 := pages[..], ow;
      ghost var lo, hi := Up(oldsz, pgsize), Up(newsz, pgsize);
      SizeGrows(oldsz, newsz, pgsize);
      var z := Deallocuvm(pg, newsz, oldsz);
      ghost var ps2 := pages[..];
      ShapeOk(S, ps2, dirs, ow, free, pend, pool);
      RolledBack(S, ps, ow1, ps1, ps2, pg, lo, a, hi);
      if Unmapped(S, ps, pg, lo, hi) { GrewShrunk(S, ps, dirs0, ow0, free0, pend0, pool, ow1, ps1, ps2, dirs, ow, free, pend, pg); }
      if mem != 0 {
        WritePage(S, ps2, dirs, ow, free, pend, pool, mem, Junk(S.n));
        PendingView(S, ps2, dirs, ow, free, pend, pool, pg, mem, Junk(S.n));
        Kfree(mem);
        PtBut(S, ps2, pages[..], pg, 0, -1, -1);
        ClearedTrans(S, ps, ps2, pages[..], pg, lo, hi);
        if Unmapped(S, ps, pg, lo, hi) {
          MappingsTrans(S, ps, ps2, pages[..], pg);
          GrewTrans(ow0, ps, ow, ps2, ow, pages[..], pg);
        }
        assert pend0 + {mem} - {mem} == pend0;
      }
    }

    /** allocuvm(): zeroed pages up to newsz, or 0.  remap says that mappages() panics, which it does at the first page of the
        range that is mapped already, if the pages below it can be had and one more.  Where the range has no mappings, as the
        process size promises, 0 leaves the user's mappings and pages as they were; otherwise the whole range is unmapped. */
    method Allocuvm(pg: int, oldsz: nat, newsz: nat) returns (r: int, remap: bool)
      requires Valid() && pg in dirs && pgsize > 0
      modifies this`free, this`ow, this`pend, pages
      ensures Up(oldsz, pgsize) <= Up(newsz, pgsize) || newsz < oldsz
      ensures newsz >= S.users * S.n * pgsize ==> r == 0 && !remap && pages[..] == old(pages[..]) && ow == old(ow) && free == old(free)
      ensures newsz < oldsz && newsz < S.users * S.n * pgsize ==> r == oldsz && !remap && pages[..] == old(pages[..]) && ow == old(ow) && free == old(free)
      ensures !remap ==> Valid() && pend == old(pend) && forall g :: g in pend && 0 <= g < pages.Length ==> pages[g] == old(pages[g])
      ensures oldsz <= newsz < S.users * S.n * pgsize ==>
        var lo, hi := Up(oldsz, pgsize), Up(newsz, pgsize);
        var m := FirstMapped(S, old(pages[..]), pg, lo, hi);
        var need := m - lo + NewTables(S, TablesIn(S, old(pages[..]), pg), lo, m);
        && (remap <==> m < hi && |old(free)| > need)
        && (!remap ==> r == if m == hi && |old(free)| >= need then newsz else 0)
      ensures oldsz <= newsz < S.users * S.n * pgsize && !remap && r == newsz && newsz > 0 ==>
        && Extended(S, old(pages[..]), ow, pages[..], pg, Up(oldsz, pgsize), Up(newsz, pgsize))
        && (forall v :: Up(oldsz, pgsize) <= v < Up(newsz, pgsize) ==> UserWrites(S, pages[..], pg, v))
        && Grew(old(ow), old(pages[..]), ow, pages[..], pg)
      ensures oldsz <= newsz < S.users * S.n * pgsize && !remap && r == 0 && newsz > 0 ==>
        && Cleared(S, old(pages[..]), pages[..], pg, Up(oldsz, pgsize), Up(newsz, pgsize))
        && (Unmapped(S, old(pages[..]), pg, Up(oldsz, pgsize), Up(newsz, pgsize)) ==>
              SameMappings(S, old(pages[..]), pages[..], pg) && Grew(old(ow), old(pages[..]), ow, pages[..], pg))
    {
      hide VmOk, Open, Pt, Grew, Up, Extended, Unmapped, SameMappings, TablesIn, NewTables, Cleared, FirstMapped;
      ghost var ps, dirs0, ow0, free0, pend0 := pages[..], dirs, ow, free, pend;
      GrewRefl(S, ps, dirs, ow, free, pend, pool, pg);
      ShapeOk(S, ps, dirs, ow, free, pend, pool);
      if oldsz <= newsz { UpMono(oldsz, newsz, pgsize); }
      if newsz >= S.users * S.n * pgsize { return 0, false; }
      if newsz < oldsz { return oldsz, false; }
      ghost var lo, hi := Up(oldsz, pgsize), Up(newsz, pgsize);
      UpMono(newsz, S.users * S.n * pgsize, pgsize);
      UpUsers(S, pgsize);
      ExtendedNone(S, ps, ow, pg, lo);
      ghost var have, m := TablesIn(S, ps, pg), FirstMapped(S, ps, pg, lo, hi);
      var a := Up(oldsz, pgsize);
      UpIff(newsz, pgsize, a);
      while a * pgsize < newsz
        invariant lo <= a <= m && m == FirstMapped(S, ps, pg, a, hi)
        invariant |free| + (m - lo) + NewTables(S, have, lo, m) == |free0| + (m - a) + NewTables(S, TablesIn(S, pages[..], pg), a, m)
        invariant Valid() && (a * pgsize < newsz <==> a < hi) && pend == pend0
        invariant Grew(ow0, ps, ow, pages[..], pg) && Extended(S, ps, ow, pages[..], pg, lo, a)
        invariant forall g :: g in pend && 0 <= g < pages.Length ==> pages[g] == old(pages[g])
        decreases hi - a
      {
        UsersFit(S, a);
        StillThere(S, ps, ow, pages[..], pg, lo, a);
        FirstMappedNext(S, ps, pg, a, hi);
        if a < m { NewTablesStep(S, TablesIn(S, pages[..], pg), a, m); } else { NoNewTables(S, TablesIn(S, pages[..], pg), a); }
        var o, mem := AllocOne(pg, a, ps, ow0, lo);
        if o == Panic { return 0, true; }
        if o == NoMemory {
          GiveUp(pg, oldsz, newsz, mem, ps, dirs0, ow0, free0, pend0, a);
          return 0, false;
        }
        a := a + 1;
        UpIff(newsz, pgsize, a);
      }
      NoNewTables(S, TablesIn(S, pages[..], pg), hi);
      assert 0 <= lo && hi <= S.n * S.n by { UsersAll(S); }
      FreshAccess(S, pages[..], dirs, ow, ps, pg, lo, hi);
      r, remap := newsz, false;
    }

    /** One iteration of copyuvm(): page a of pg is copied for dg. */
    method CopyOne(pg: int, dg: int, a: nat, ghost ps: seq<Page>, ghost ow0: Owners, kmap: seq<Seg>) returns (r: Outcome)
      requires Valid() && pg in dirs && dg in dirs && pg != dg && a < S.users * S.n && KmapOk(S, kmap)
      requires Grew(ow0, ps, ow, pages[..], dg) && CopiedTo(S, pages[..], ow, pg, dg, kmap, a)
      modifies this`free, this`ow, this`pend, pages
      ensures Valid() && pend == old(pend) && Grew(ow0, ps, ow, pages[..], dg)
      ensures r == Panic <==> !Pt(S, old(pages[..]), pg, a).present
      ensures r == NoMemory ==> |old(free)| < if a / S.n in TablesIn(S, old(pages[..]), dg) then 1 else 2
      ensures r == Done ==> |free| == |old(free)| - if a / S.n in TablesIn(S, old(pages[..]), dg) then 1 else 2
      ensures r == Done ==> CopiedTo(S, pages[..], ow, pg, dg, kmap, a + 1) && TablesIn(S, pages[..], dg) == TablesIn(S, old(pages[..]), dg) + {a / S.n}
      ensures forall v :: 0 <= v < S.n * S.n ==> Pt(S, pages[..], pg, v) == Pt(S, old(pages[..]), pg, v)
      ensures forall g :: g in pend && 0 <= g < pages.Length ==> pages[g] == old(pages[g])
    {
      hide VmOk, Open, Pt, Grew, CopiedTo, PteAt, SameBut, Copied, TablesIn;
      ghost var ps0, ow1, pend0 := pages[..], ow, pend;
      ShapeOk(S, ps0, dirs, ow, free, pend, pool);
      UsersFit(S, a);
      var d, t := a / S.n, a % S.n;
      PtSplit(S, ps0, pg, a, d, t);
      TableAt(S, ps0, dirs, ow, free, pend, pool, pg, d);
      if !pages[pg][d].present {
        NoTable(S, ps0, pg, d, t);
        return Panic;
      }
      var tab := pages[pg][d].addr;
      EntryIs(S, ps0, pg, d, t);
      if !pages[tab][t].present { return Panic; }
      var pa, flags := pages[tab][t].addr, pages[tab][t].flags;
      MappedOwned(S, ps0, dirs, ow, free, pend, pool, pg, a);
      NotYetCopied(S, ps0, ow, pg, dg, kmap, a);
      var mem := Kalloc();
      if mem == 0 { return NoMemory; }
      WritePage(S, ps0, dirs, ow, free, pend, pool, mem, pages[pa]);
      PendingView(S, ps0, dirs, ow, free, pend, pool, dg, mem, pages[pa]);
      PendingView(S, ps0, dirs, ow, free, pend, pool, pg, mem, pages[pa]);
      PlacedNotDir(S, ps0, dirs, ow, free, pend, pool, mem);
      OpenWrite(ps0, dirs, mem, pages[pa]);
      pages[mem] := pages[pa];
      ghost var ps1, free1, pend1 := pages[..], free, pend;
      PtBut(S, ps0, ps1, dg, a, -1, -1);
      PtBut(S, ps0, ps1, pg, a, -1, -1);
      GrewTrans(ow0, ps, ow1, ps0, ow1, ps1, dg);
      CopiedSame(S, ps0, ps1, ow1, pg, dg, kmap, a);
      TableAt(S, ps0, dirs, ow, free, pend, pool, dg, 0);
      TablesSame(S, ps0, ps1, dg);
      OwnedNotPending(S, ps1, dirs, ow, free, pend, pool, pa);
      r := MapOne(dg, a, mem, flags);
      GrewTrans(ow0, ps, ow1, ps1, ow, pages[..], dg);
      PtOther(S, ps1, dirs, ow1, free1, pend1, pool, ow, pages[..], pg, dg);
      if r != Done {
        Kfree(mem);
        Restore(S, ps0, ps1, dirs, ow1, free1, pend1, pool, pg, dg, mem, Junk(S.n));
        assert pend0 + {mem} - {mem} == pend0;
        GrewTrans(ow0, ps, ow1, ps1, ow, pages[..], dg);
        return;
      }
      OwnedSame(ow1, ps1, ow, pages[..], dg, pa);
      CopiedAt(S, pages[..], ow, pg, dg, a, pa, mem, flags);
      CopiedMore(S, ps1, ow1, pages[..], ow, pg, dg, kmap, a);
      assert pend0 + {mem} - {mem} == pend0;
    }

    /** copyuvm(): a new page table whose user pages have the same contents in other pages, or nothing with everything given back. */
    method Copyuvm(pg: int, sz: nat, kmap: seq<Seg>) returns (r: Copy)
      requires Valid() && pg in dirs && pgsize > 0 && KmapOk(S, kmap) && Up(sz, pgsize) <= S.users * S.n
      modifies this`free, this`ow, this`pend, this`dirs, pages
      ensures Valid() && pend == old(pend)
      ensures r == CopyPanic ==> exists v :: 0 <= v < Up(sz, pgsize) && !Pt(S, old(pages[..]), pg, v).present
      ensures r == NoCopy ==> |old(free)| < CopyPages(S, kmap, Up(sz, pgsize))
      ensures r.NewSpace? ==> |free| == |old(free)| - CopyPages(S, kmap, Up(sz, pgsize))
      ensures r == NoCopy ==> dirs == old(dirs) && ow == old(ow) && SameData(ow, old(pages[..]), pages[..])
      ensures r.NewSpace? ==> r.dg !in old(dirs) && dirs == old(dirs) + {r.dg} && Grew(old(ow), old(pages[..]), ow, pages[..], r.dg)
      ensures r.NewSpace? ==> CopiedTo(S, pages[..], ow, pg, r.dg, kmap, Up(sz, pgsize))
      ensures r.NewSpace? ==> forall v :: 0 <= v < Up(sz, pgsize) ==>
        && (UserReads(S, pages[..], r.dg, v) <==> UserReads(S, pages[..], pg, v))
        && (UserWrites(S, pages[..], r.dg, v) <==> UserWrites(S, pages[..], pg, v))
      ensures r.NewSpace? ==> forall v :: 0 <= v < S.n * S.n ==> Pt(S, pages[..], pg, v) == Pt(S, old(pages[..]), pg, v)
    {
      hide VmOk, Open, Pt, Grew, CopiedTo, Up, KernelMapped, PagesOf, TablesIn, NewTables, KernelDirs;
      ghost var ps, dirs0, ow0, free0, pend0 := pages[..], dirs, ow, free, pend;
      var dg := Setupkvm(kmap);
      if dg == 0 { return NoCopy; }
      PtOther(S, ps, dirs0, ow0, free0, pend0, pool, ow, pages[..], pg, dg);
      CopiedStart(S, pages[..], ow, pg, dg, kmap);
      ghost var hi := Up(sz, pgsize);
      var i := 0;
      UpIff(sz, pgsize, i);
      while i * pgsize < sz
        invariant |free| + CopyPages(S, kmap, hi) == |free0| + (hi - i) + NewTables(S, TablesIn(S, pages[..], dg), i, hi)
        invariant 0 <= i && Valid() && pend == pend0 && dirs == dirs0 + {dg} && (i * pgsize < sz <==> i < Up(sz, pgsize)) && i <= Up(sz, pgsize)
        invariant Grew(ow0, ps, ow, pages[..], dg) && CopiedTo(S, pages[..], ow, pg, dg, kmap, i)
        invariant forall v :: 0 <= v < S.n * S.n ==> Pt(S, pages[..], pg, v) == Pt(S, ps, pg, v)
        decreases Up(sz, pgsize) - i
      {
        ShapeOk(S, pages[..], dirs, ow, free, pend, pool);
        UsersFit(S, i);
        NewTablesStep(S, TablesIn(S, pages[..], dg), i, hi);
        var x := CopyOne(pg, dg, i, ps, ow0, kmap);
        if x == Panic { return CopyPanic; }
        if x == NoMemory {
          ghost var ps1, ow1 := pages[..], ow;
          NewOnly(S, ps, dirs0, ow0, free0, pend0, pool, ow1, ps1, dg);
          Freevm(dg);
          SameDataTrans(ow0, ps, ps1, pages[..]);
          assert dirs0 + {dg} - {dg} == dirs0;
          return NoCopy;
        }
        i := i + 1;
        UpIff(sz, pgsize, i);
      }
      NoNewTables(S, TablesIn(S, pages[..], dg), hi);
      ShapeOk(S, pages[..], dirs, ow, free, pend, pool);
      assert hi <= S.n * S.n by { UsersAll(S); }
      CopiedAccess(S, pages[..], dirs, ow, pg, dg, kmap, hi);
      r := NewSpace(dg);
    }
  }
}
