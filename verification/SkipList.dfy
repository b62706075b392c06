/** The run queue of proc.c: doubly linked chains, one per level, threaded
    through one array of nodes.  Node 0 is the sentinel.

    `order` is the ghost sequence of node indices in level-0 order; `Inv` ties
    every link of every level to it.  `Contents` is the plain list of
    (value, pid) entries that the queue stands for. */
module SkipLists {
  import opened Counting

  /** One element of nodeList.  The C field `valid` only ever holds 0 or 1. */
  datatype SkipNode = SkipNode(valid: bool, value: int, pid: int, maxlevel: int,
                               forward: seq<int>, backward: seq<int>)

  datatype Entry = Entry(value: int, pid: int)

  // ---------------------------------------------------------------- reference list

  ghost predicate Sorted(c: seq<Entry>) {
    forall i, j :: 0 <= i < j < |c| ==> c[i].value <= c[j].value
  }

  /** First position at or after i whose entry is not below v. */
  ghost function RankFrom(c: seq<Entry>, v: int, i: nat): (r: nat)
    requires i <= |c|
    ensures i <= r <= |c|
    ensures forall k :: i <= k < r ==> c[k].value < v
    ensures r < |c| ==> c[r].value >= v
    decreases |c| - i
  {
    if i == |c| || c[i].value >= v then i else RankFrom(c, v, i + 1)
  }

  ghost function Rank(c: seq<Entry>, v: int): (r: nat)
    ensures r <= |c|
    ensures forall k :: 0 <= k < r ==> c[k].value < v
    ensures r < |c| ==> c[r].value >= v
  {
    RankFrom(c, v, 0)
  }

  /** A new entry goes in front of every entry with the same or a larger value. */
  ghost function Inserted(c: seq<Entry>, e: Entry): seq<Entry> {
    c[..Rank(c, e.value)] + [e] + c[Rank(c, e.value)..]
  }

  /** Only the first occurrence of e is taken out. */
  ghost function Removed(c: seq<Entry>, e: Entry): seq<Entry> {
    if c == [] then [] else if c[0] == e then c[1..] else [c[0]] + Removed(c[1..], e)
  }

  lemma {:induction false} RemovedAbsent(c: seq<Entry>, e: Entry)
    requires e !in c
    ensures Removed(c, e) == c
  {
    if c != [] {
      RemovedAbsent(c[1..], e);
      assert c == [c[0]] + c[1..];
    }
  }

  ghost predicate FirstAt(c: seq<Entry>, e: Entry, k: nat) {
    k < |c| && c[k] == e && e !in c[..k]
  }

  lemma {:induction false} RemovedAt(c: seq<Entry>, e: Entry, k: nat)
    requires FirstAt(c, e, k)
    ensures Removed(c, e) == c[..k] + c[k + 1..]
  {
    if k > 0 {
      assert c[0] == c[..k][0] != e;
      assert c[1..][..k - 1] == c[..k][1..];
      RemovedAt(c[1..], e, k - 1);
      assert c[1..][k..] == c[k + 1..];
      assert [c[0]] + (c[1..][..k - 1] + c[1..][k..]) == c[..k] + c[k + 1..];
    }
  }

  lemma {:induction false} InsertedSorted(c: seq<Entry>, e: Entry)
    requires Sorted(c)
    ensures Sorted(Inserted(c, e))
  {
    SortedAround(c, e, Rank(c, e.value), Inserted(c, e));
  }

  lemma {:induction false} InsertedMultiset(c: seq<Entry>, e: Entry)
    ensures multiset(Inserted(c, e)) == multiset(c) + multiset{e}
  {
    var r := Rank(c, e.value);
    assert c == c[..r] + c[r..];
  }

  lemma {:induction false} SortedAround(c: seq<Entry>, e: Entry, r: nat, d: seq<Entry>)
    requires Sorted(c) && r <= |c| && |d| == |c| + 1 && d[r] == e
    requires forall k :: 0 <= k < r ==> d[k] == c[k]
    requires forall k :: r < k < |d| ==> d[k] == c[k - 1]
    requires forall k :: 0 <= k < r ==> c[k].value <= e.value
    requires r < |c| ==> e.value <= c[r].value
    ensures Sorted(d)
  {
    forall i, j | 0 <= i < j < |d| ensures d[i].value <= d[j].value {
      if i == r && j > r + 1 { assert c[r].value <= c[j - 1].value; }
    }
  }

  /** Taking out an entry that was just put in gives the list back. */
  lemma {:induction false} RemoveUndoesInsert(c: seq<Entry>, e: Entry)
    requires e !in c
    ensures Removed(Inserted(c, e), e) == c
  {
    var r := Rank(c, e.value);
    RemovedAt(Inserted(c, e), e, r);
    assert Inserted(c, e)[..r] + Inserted(c, e)[r + 1..] == c;
  }

  lemma {:induction false} RemovedMultiset(c: seq<Entry>, e: Entry)
    requires e in c
    ensures multiset(Removed(c, e)) == multiset(c) - multiset{e}
  {
    assert c == [c[0]] + c[1..];
    if c[0] != e { RemovedMultiset(c[1..], e); }
  }

  // ---------------------------------------------------------------- chains

  ghost predicate Shape(s: seq<SkipNode>, levels: nat) {
    forall k :: 0 <= k < |s| ==> |s[k].forward| == levels && |s[k].backward| == levels
  }

  /** c lists different positions below n. */
  ghost predicate Indices(n: nat, c: seq<int>) {
    && (forall k :: 0 <= k < |c| ==> 0 <= c[k] < n)
    && (forall j, k :: 0 <= j < k < |c| ==> c[j] != c[k])
  }

  /** The forward links of level i, as a column over all nodes. */
  ghost function Fw(s: seq<SkipNode>, levels: nat, i: int): (r: seq<int>)
    requires Shape(s, levels) && 0 <= i < levels
    ensures |r| == |s|
  {
    seq(|s|, k requires 0 <= k < |s| => s[k].forward[i])
  }

  ghost function Bw(s: seq<SkipNode>, levels: nat, i: int): (r: seq<int>)
    requires Shape(s, levels) && 0 <= i < levels
    ensures |r| == |s|
  {
    seq(|s|, k requires 0 <= k < |s| => s[k].backward[i])
  }

  /** Forward follows c to its end, and backward inverts it. */
  ghost predicate Linked(fw: seq<int>, bw: seq<int>, c: seq<int>) {
    && |fw| == |bw| && Indices(|fw|, c)
    && |c| > 0
    && fw[c[|c| - 1]] == -1
    && (forall k :: 0 <= k < |c| - 1 ==> fw[c[k]] == c[k + 1])
    && (forall k :: 0 < k < |c| ==> bw[c[k]] == c[k - 1])
  }

  /** The members of `order` that reach level i, in the same order. */
  ghost function Reaching(s: seq<SkipNode>, order: seq<int>, i: int): seq<int> {
    if order == [] then []
    else (if 0 <= order[0] < |s| && s[order[0]].maxlevel >= i then [order[0]] else []) + Reaching(s, order[1..], i)
  }

  lemma {:induction false} ReachingMembers(s: seq<SkipNode>, order: seq<int>, i: int)
    ensures forall x :: x in Reaching(s, order, i) <==> x in order && 0 <= x < |s| && s[x].maxlevel >= i
  {
    if order != [] {
      ReachingMembers(s, order[1..], i);
      assert forall x :: x in order <==> x == order[0] || x in order[1..];
    }
  }

  ghost predicate SortedNodes(s: seq<SkipNode>, order: seq<int>)
    requires Indices(|s|, order)
  {
    forall j, k :: 0 <= j < k < |order| ==> s[order[j]].value <= s[order[k]].value
  }

  /** Exactly the sentinel and the nodes of `order` are valid, and `order` avoids the sentinel. */
  ghost predicate Occupied(s: seq<SkipNode>, order: seq<int>) {
    && |s| > 0
    && Indices(|s|, order)
    && 0 !in order
    && (forall k :: 0 <= k < |s| ==> (s[k].valid <==> k == 0 || k in order))
  }

  ghost predicate Leveled(s: seq<SkipNode>, order: seq<int>, level: int)
    requires Indices(|s|, order)
  {
    forall x :: x in order ==> 0 <= s[x].maxlevel <= level
  }

  /** Level i, read from the sentinel, is the subsequence of `order` that reaches level i. */
  ghost predicate LinkedAt(s: seq<SkipNode>, levels: nat, order: seq<int>, i: int)
    requires Shape(s, levels) && 0 <= i < levels
  {
    Linked(Fw(s, levels, i), Bw(s, levels, i), [0] + Reaching(s, order, i))
  }

  ghost predicate Inv(s: seq<SkipNode>, levels: nat, order: seq<int>, level: int) {
    && Shape(s, levels)
    && Occupied(s, order)
    && SortedNodes(s, order)
    && 0 <= level < levels
    && Leveled(s, order, level)
    && (forall i :: 0 <= i < levels ==> LinkedAt(s, levels, order, i))
  }

  ghost function NodeEntries(s: seq<SkipNode>, order: seq<int>): (c: seq<Entry>)
    requires Indices(|s|, order)
    ensures |c| == |order|
  {
    seq(|order|, k requires 0 <= k < |order| => Entry(s[order[k]].value, s[order[k]].pid))
  }

  // ---------------------------------------------------------------- one level at a time

  /** Only links differ between s and t. */
  ghost predicate SameFields(s: seq<SkipNode>, t: seq<SkipNode>) {
    && |s| == |t|
    && (forall k :: 0 <= k < |s| ==>
        t[k].valid == s[k].valid && t[k].value == s[k].value &&
        t[k].pid == s[k].pid && t[k].maxlevel == s[k].maxlevel)
  }

  /** Only links of level i may differ between s and t. */
  ghost predicate SameBut(s: seq<SkipNode>, t: seq<SkipNode>, levels: nat, i: int) {
    && Shape(s, levels) && Shape(t, levels) && SameFields(s, t)
    && (forall j :: 0 <= j < levels && j != i ==> Fw(t, levels, j) == Fw(s, levels, j))
    && (forall j :: 0 <= j < levels && j != i ==> Bw(t, levels, j) == Bw(s, levels, j))
  }

  function SetForward(s: seq<SkipNode>, levels: nat, k: int, i: int, v: int): (r: seq<SkipNode>)
    requires Shape(s, levels) && 0 <= k < |s| && 0 <= i < levels
    ensures SameBut(s, r, levels, i)
    ensures Fw(r, levels, i) == Fw(s, levels, i)[k := v] && Bw(r, levels, i) == Bw(s, levels, i)
  {
    s[k := s[k].(forward := s[k].forward[i := v])]
  }

  function SetBackward(s: seq<SkipNode>, levels: nat, k: int, i: int, v: int): (r: seq<SkipNode>)
    requires Shape(s, levels) && 0 <= k < |s| && 0 <= i < levels
    ensures SameBut(s, r, levels, i)
    ensures Bw(r, levels, i) == Bw(s, levels, i)[k := v] && Fw(r, levels, i) == Fw(s, levels, i)
  {
    s[k := s[k].(backward := s[k].backward[i := v])]
  }

  lemma {:induction false} ReachingSplit(s: seq<SkipNode>, a: seq<int>, b: seq<int>, i: int)
    ensures Reaching(s, a + b, i) == Reaching(s, a, i) + Reaching(s, b, i)
  {
    if a == [] {
      assert a + b == b;
    } else {
      assert (a + b)[1..] == a[1..] + b;
      ReachingSplit(s, a[1..], b, i);
    }
  }

  lemma {:induction false} ReachingFrame(s: seq<SkipNode>, t: seq<SkipNode>, a: seq<int>, i: int)
    requires |s| == |t|
    requires forall x :: x in a && 0 <= x < |s| ==> s[x].maxlevel == t[x].maxlevel
    ensures Reaching(s, a, i) == Reaching(t, a, i)
  {
    if a != [] {
      assert a[0] in a && forall x :: x in a[1..] ==> x in a;
      ReachingFrame(s, t, a[1..], i);
    }
  }

  /** Every node of `order` is on level 0. */
  lemma {:induction false} ReachingZero(s: seq<SkipNode>, order: seq<int>)
    requires forall x :: x in order ==> 0 <= x < |s| && s[x].maxlevel >= 0
    ensures Reaching(s, order, 0) == order
  {
    if order != [] {
      assert order[0] in order && forall x :: x in order[1..] ==> x in order;
      ReachingZero(s, order[1..]);
      assert order == [order[0]] + order[1..];
    }
  }

  lemma {:induction false} ChainStep(fw: seq<int>, bw: seq<int>, p: seq<int>, q: seq<int>, k: nat)
    requires k < |p| && Linked(fw, bw, p + q)
    ensures 0 <= p[k] < |fw|
    ensures fw[p[k]] == if k + 1 < |p| then p[k + 1] else if q == [] then -1 else q[0]
  {
    assert (p + q)[k] == p[k];
    if k + 1 < |p| + |q| { assert fw[(p + q)[k]] == (p + q)[k + 1]; }
  }

  /** x enters the chain between its neighbours p and q. */
  lemma {:induction false} SpliceIn(fw: seq<int>, bw: seq<int>, p: seq<int>, q: seq<int>, b: int, x: int)
    requires |p| > 0 && Linked(fw, bw, p + q) && Indices(|fw|, p + [x] + q)
    requires b == p[|p| - 1] && 0 <= b < |fw| && 0 <= x < |fw| && (q != [] ==> 0 <= q[0] < |fw|)
    ensures fw[b] == if q == [] then -1 else q[0]
    ensures Linked(fw[x := fw[b]][b := x], (if q == [] then bw else bw[q[0] := x])[x := b], p + [x] + q)
  {
    var c, d, n := p + q, p + [x] + q, |p|;
    assert d[n] == x && c[n - 1] == b && d[n - 1] == b;
    assert q != [] ==> q[0] == c[n] && q[0] == d[n + 1];
    assert fw[c[n - 1]] == if q == [] then -1 else q[0];
    var fw' := fw[x := fw[b]][b := x];
    var bw' := (if q == [] then bw else bw[q[0] := x])[x := b];
    forall k | 0 <= k < |d| - 1 ensures fw'[d[k]] == d[k + 1] {
      if k < n - 1 { assert fw[c[k]] == c[k + 1]; } else if k > n { assert fw[c[k - 1]] == c[k]; }
    }
    forall k | 0 < k < |d| ensures bw'[d[k]] == d[k - 1] {
      if k < n { assert bw[c[k]] == c[k - 1]; } else if k > n + 1 { assert bw[c[k - 1]] == c[k - 2]; }
    }
    assert d[|d| - 1] == if q == [] then x else c[|c| - 1];
  }

  /** x leaves the chain; its own links no longer matter. */
  lemma {:induction false} SpliceOut(fw: seq<int>, bw: seq<int>, p: seq<int>, q: seq<int>, b: int, x: int)
    requires |p| > 0 && Linked(fw, bw, p + [x] + q)
    requires b == p[|p| - 1] && 0 <= b < |fw| && 0 <= x < |fw| && (q != [] ==> 0 <= q[0] < |fw|)
    ensures fw[x] == (if q == [] then -1 else q[0]) && bw[x] == b
    ensures Linked(fw[b := fw[x]][x := -1], (if q == [] then bw else bw[q[0] := b])[x := -1], p + q)
  {
    var d, n := p + [x] + q, |p|;
    assert d[n] == x && d[n - 1] == b;
    assert fw[d[n]] == (if q == [] then -1 else q[0]) by {
      if q != [] { assert d[n + 1] == q[0]; assert fw[d[n]] == d[n + 1]; }
    }
    assert bw[d[n]] == d[n - 1];
    WithoutMiddle(fw, bw, d, p + q, n);
  }

  lemma {:induction false} WithoutMiddle(fw: seq<int>, bw: seq<int>, d: seq<int>, c: seq<int>, n: nat)
    requires Linked(fw, bw, d) && 0 < n < |d| && |c| == |d| - 1
    requires forall k :: 0 <= k < n ==> c[k] == d[k]
    requires forall k :: n <= k < |c| ==> c[k] == d[k + 1]
    ensures var b, x := d[n - 1], d[n];
            Linked(fw[b := fw[x]][x := -1], (if n == |c| then bw else bw[c[n] := b])[x := -1], c)
  {
    var b, x := d[n - 1], d[n];
    var fw' := fw[b := fw[x]][x := -1];
    var bw' := (if n == |c| then bw else bw[c[n] := b])[x := -1];
    forall j, k | 0 <= j < k < |c| ensures c[j] != c[k] && c[k] != x && c[j] != x {
      assert d[if j < n then j else j + 1] == c[j];
      assert d[if k < n then k else k + 1] == c[k];
    }
    forall k | 0 <= k < |c| - 1 ensures fw'[c[k]] == c[k + 1] {
      if k < n - 1 { assert fw[d[k]] == d[k + 1]; } else { assert fw[d[k + 1]] == d[k + 2]; }
    }
    forall k | 0 < k < |c| ensures bw'[c[k]] == c[k - 1] {
      if k < n { assert bw[d[k]] == d[k - 1]; } else if k > n { assert bw[d[k + 1]] == d[k]; }
    }
  }

  // ---------------------------------------------------------------- splitting a level at a value

  ghost function Cut(s: seq<SkipNode>, order: seq<int>, v: int): (r: nat)
    requires Indices(|s|, order)
    ensures r <= |order|
  {
    Rank(NodeEntries(s, order), v)
  }

  /** Level i up to the last node below v, and the rest of level i. */
  ghost function Front(s: seq<SkipNode>, order: seq<int>, i: int, v: int): seq<int>
    requires Indices(|s|, order)
  {
    [0] + Reaching(s, order[..Cut(s, order, v)], i)
  }

  ghost function Rear(s: seq<SkipNode>, order: seq<int>, i: int, v: int): seq<int>
    requires Indices(|s|, order)
  {
    Reaching(s, order[Cut(s, order, v)..], i)
  }

  ghost function LastBelow(s: seq<SkipNode>, order: seq<int>, i: int, v: int): int
    requires Indices(|s|, order)
  {
    var f := Front(s, order, i, v);
    f[|f| - 1]
  }

  lemma {:induction false} CutValues(s: seq<SkipNode>, order: seq<int>, v: int)
    requires Occupied(s, order) && SortedNodes(s, order)
    ensures forall x :: x in order[..Cut(s, order, v)] ==> 0 < x < |s| && s[x].valid && s[x].value < v
    ensures forall x :: x in order[Cut(s, order, v)..] ==> 0 < x < |s| && s[x].valid && s[x].value >= v
  {
    var n := Cut(s, order, v);
    forall x | x in order[..n] ensures 0 < x < |s| && s[x].valid && s[x].value < v {
      var k :| 0 <= k < n && order[k] == x;
      assert NodeEntries(s, order)[k].value < v;
    }
    forall x | x in order[n..] ensures 0 < x < |s| && s[x].valid && s[x].value >= v {
      var k :| n <= k < |order| && order[k] == x;
      assert NodeEntries(s, order)[n].value >= v;
      assert n < k ==> s[order[n]].value <= s[order[k]].value;
    }
  }

  lemma {:induction false} ReachingCut(s: seq<SkipNode>, order: seq<int>, i: int, n: nat)
    requires n <= |order|
    ensures Reaching(s, order, i) == Reaching(s, order[..n], i) + Reaching(s, order[n..], i)
  {
    assert order == order[..n] + order[n..];
    ReachingSplit(s, order[..n], order[n..], i);
  }

  lemma {:induction false} SplitAtIndex(s: seq<SkipNode>, levels: nat, order: seq<int>, i: int, n: nat)
    requires Shape(s, levels) && 0 <= i < levels && LinkedAt(s, levels, order, i)
    requires n <= |order|
    ensures Linked(Fw(s, levels, i), Bw(s, levels, i), [0] + Reaching(s, order[..n], i) + Reaching(s, order[n..], i))
  {
    ReachingCut(s, order, i, n);
    var a, b := Reaching(s, order[..n], i), Reaching(s, order[n..], i);
    assert [0] + (a + b) == [0] + a + b;
  }

  lemma {:induction false} SplitAt(s: seq<SkipNode>, levels: nat, order: seq<int>, level: int, i: int, v: int)
    requires Inv(s, levels, order, level) && 0 <= i < levels
    ensures Linked(Fw(s, levels, i), Bw(s, levels, i), Front(s, order, i, v) + Rear(s, order, i, v))
  {
    SplitAtIndex(s, levels, order, i, Cut(s, order, v));
  }

  /** From the k-th node of the front p, the forward link stays below v until p ends. */
  ghost predicate Follows(s: seq<SkipNode>, p: seq<int>, k: nat, i: int, v: int) {
    && k < |p| && 0 <= p[k] < |s| && 0 <= i < |s[p[k]].forward|
    && var f := s[p[k]].forward[i];
    && -1 <= f < |s|
    && if k + 1 < |p| then f == p[k + 1] && f > 0 && s[f].valid && s[f].value < v
       else f == -1 || (s[f].valid && s[f].value >= v)
  }

  lemma {:induction false} FrontFollows(s: seq<SkipNode>, levels: nat, order: seq<int>, level: int, i: int, v: int)
    requires Inv(s, levels, order, level) && 0 <= i < levels
    ensures var p := Front(s, order, i, v); forall k :: 0 <= k < |p| ==> Follows(s, p, k, i, v)
  {
    var p, q := Front(s, order, i, v), Rear(s, order, i, v);
    SplitAt(s, levels, order, level, i, v);
    CutValues(s, order, v);
    ReachingMembers(s, order[..Cut(s, order, v)], i);
    ReachingMembers(s, order[Cut(s, order, v)..], i);
    forall k | 0 <= k < |p| ensures Follows(s, p, k, i, v) {
      ChainStep(Fw(s, levels, i), Bw(s, levels, i), p, q, k);
      if k + 1 < |p| {
        assert p[k + 1] in Reaching(s, order[..Cut(s, order, v)], i);
      } else if q != [] {
        assert q[0] in q;
      }
    }
  }

  /** A node in the front of one level is in the front of the level below. */
  lemma {:induction false} LowerFront(s: seq<SkipNode>, order: seq<int>, i: int, v: int)
    requires Indices(|s|, order)
    ensures forall x :: x in Front(s, order, i, v) ==> x in Front(s, order, i - 1, v)
  {
    ReachingMembers(s, order[..Cut(s, order, v)], i);
    ReachingMembers(s, order[..Cut(s, order, v)], i - 1);
  }

  /** cur is the k-th node of the bottom level, counting the sentinel as node 0. */
  ghost predicate OnBottom(s: seq<SkipNode>, order: seq<int>, k: nat, cur: int) {
    && k <= |order| && cur == ([0] + order)[k] && 0 <= cur < |s| && |s[cur].forward| > 0
    && if k < |order|
       then s[cur].forward[0] == order[k] && 0 < order[k] < |s| && s[order[k]].valid
       else s[cur].forward[0] == -1
  }

  lemma {:induction false} BottomStep(s: seq<SkipNode>, levels: nat, order: seq<int>, level: int, k: nat)
    requires Inv(s, levels, order, level) && k <= |order|
    ensures OnBottom(s, order, k, ([0] + order)[k])
  {
    ReachingZero(s, order);
    assert LinkedAt(s, levels, order, 0);
    assert [0] + order + [] == [0] + order;
    ChainStep(Fw(s, levels, 0), Bw(s, levels, 0), [0] + order, [], k);
  }

  lemma {:induction false} PrefixZero(s: seq<SkipNode>, order: seq<int>, k: nat)
    requires Indices(|s|, order) && k <= |order|
    requires forall x :: x in order ==> s[x].maxlevel >= 0
    ensures Reaching(s, order[..k], 0) == order[..k]
  {
    assert forall x :: x in order[..k] ==> x in order;
    ReachingZero(s, order[..k]);
  }

  lemma {:induction false} LastBelowZero(s: seq<SkipNode>, order: seq<int>, v: int)
    requires Indices(|s|, order)
    requires forall x :: x in order ==> s[x].maxlevel >= 0
    ensures LastBelow(s, order, 0, v) == ([0] + order)[Cut(s, order, v)]
  {
    var n := Cut(s, order, v);
    PrefixZero(s, order, n);
    assert Front(s, order, 0, v) == [0] + order[..n];
    assert ([0] + order[..n])[n] == ([0] + order)[n];
  }

  /** The bottom level visits `order`, whose entries are c. */
  ghost predicate BottomRow(s: seq<SkipNode>, order: seq<int>, c: seq<Entry>) {
    && |c| == |order|
    && (forall k :: 0 <= k <= |order| ==> OnBottom(s, order, k, ([0] + order)[k]))
    && (forall k :: 0 <= k < |order| ==> 0 <= order[k] < |s| && c[k] == Entry(s[order[k]].value, s[order[k]].pid))
  }

  lemma {:induction false} BottomRowHolds(s: seq<SkipNode>, levels: nat, order: seq<int>, level: int)
    requires Inv(s, levels, order, level)
    ensures BottomRow(s, order, NodeEntries(s, order)) && Sorted(NodeEntries(s, order))
  {
    forall k | 0 <= k <= |order| ensures OnBottom(s, order, k, ([0] + order)[k]) {
      BottomStep(s, levels, order, level, k);
    }
  }

  lemma {:induction false} CutEntries(s: seq<SkipNode>, order: seq<int>, v: int)
    requires Indices(|s|, order) && SortedNodes(s, order)
    ensures forall k :: 0 <= k < Cut(s, order, v) ==> NodeEntries(s, order)[k].value < v
    ensures forall k :: Cut(s, order, v) <= k < |order| ==> NodeEntries(s, order)[k].value >= v
  {
    var c, n := NodeEntries(s, order), Cut(s, order, v);
    forall k | n <= k < |order| ensures c[k].value >= v {
      assert c[n].value >= v;
      assert n < k ==> s[order[n]].value <= s[order[k]].value;
    }
  }

  /** x can be linked in behind b on level i, between p and q. */
  ghost predicate Insertable(s: seq<SkipNode>, levels: nat, i: int, x: int, b: int, p: seq<int>, q: seq<int>)
    requires Shape(s, levels) && 0 <= i < levels
  {
    && Linked(Fw(s, levels, i), Bw(s, levels, i), p + q)
    && |p| > 0 && b == p[|p| - 1] && 0 <= b < |s| && Indices(|s|, p + [x] + q)
    && (q != [] ==> 0 <= q[0] < |s| && s[q[0]].valid)
  }

  // ---------------------------------------------------------------- inserting and removing a node

  ghost function With(order: seq<int>, n: nat, x: int): (r: seq<int>)
    requires n <= |order|
    ensures |r| == |order| + 1 && r[n] == x
    ensures forall k :: 0 <= k < n ==> r[k] == order[k]
    ensures forall k :: n < k < |r| ==> r[k] == order[k - 1]
    ensures forall y :: y in r <==> y == x || y in order
  {
    assert order == order[..n] + order[n..];
    order[..n] + [x] + order[n..]
  }

  ghost function Without(order: seq<int>, n: nat): (r: seq<int>)
    requires n < |order|
    ensures |r| == |order| - 1
    ensures forall k :: 0 <= k < n ==> r[k] == order[k]
    ensures forall k :: n <= k < |r| ==> r[k] == order[k + 1]
  {
    order[..n] + order[n + 1..]
  }

  /** s and t agree on every node but x, links aside. */
  ghost predicate SameFieldsBut(s: seq<SkipNode>, t: seq<SkipNode>, x: int) {
    && |s| == |t|
    && (forall k :: 0 <= k < |s| && k != x ==>
        t[k].valid == s[k].valid && t[k].value == s[k].value &&
        t[k].pid == s[k].pid && t[k].maxlevel == s[k].maxlevel)
  }

  lemma {:induction false} WithIndices(m: nat, order: seq<int>, n: nat, x: int)
    requires Indices(m, order) && n <= |order| && 0 <= x < m && x !in order
    ensures Indices(m, With(order, n, x))
  {
  }

  lemma {:induction false} ReachingAround(t: seq<SkipNode>, a: seq<int>, x: int, b: seq<int>, i: int)
    requires 0 <= x < |t|
    ensures Reaching(t, a + ([x] + b), i)
         == Reaching(t, a, i) + (if t[x].maxlevel >= i then [x] else []) + Reaching(t, b, i)
  {
    ReachingSplit(t, a, [x] + b, i);
    assert ([x] + b)[1..] == b;
    var ra, rb, m := Reaching(t, a, i), Reaching(t, b, i), if t[x].maxlevel >= i then [x] else [];
    assert ra + (m + rb) == ra + m + rb;
  }

  lemma {:induction false} WithReaching(s: seq<SkipNode>, t: seq<SkipNode>, order: seq<int>, n: nat, x: int, i: int)
    requires SameFieldsBut(s, t, x) && n <= |order| && 0 <= x < |s| && x !in order
    ensures Reaching(t, With(order, n, x), i)
         == Reaching(s, order[..n], i) + (if t[x].maxlevel >= i then [x] else []) + Reaching(s, order[n..], i)
  {
    var w, a, b := With(order, n, x), order[..n], order[n..];
    assert w == a + ([x] + b);
    ReachingAround(t, a, x, b, i);
    ReachingFrame(s, t, a, i);
    ReachingFrame(s, t, b, i);
  }

  lemma {:induction false} WithEntries(s: seq<SkipNode>, t: seq<SkipNode>, order: seq<int>, n: nat, x: int)
    requires SameFieldsBut(s, t, x) && Indices(|s|, order) && n <= |order|
    requires 0 <= x < |s| && x !in order && Indices(|s|, With(order, n, x))
    ensures NodeEntries(t, With(order, n, x))
         == NodeEntries(s, order)[..n] + [Entry(t[x].value, t[x].pid)] + NodeEntries(s, order)[n..]
  {
  }

  /** Level i of t after x was linked in on every level up to top. */
  ghost predicate LinkedWith(t: seq<SkipNode>, levels: nat, i: int, x: int, top: int, p: seq<int>, q: seq<int>)
    requires Shape(t, levels) && 0 <= i < levels
  {
    Linked(Fw(t, levels, i), Bw(t, levels, i), p + (if top >= i then [x] else []) + q)
  }

  lemma {:induction false} WithLinked(s: seq<SkipNode>, t: seq<SkipNode>, levels: nat, order: seq<int>, n: nat, x: int, i: int)
    requires SameFieldsBut(s, t, x) && n <= |order| && 0 <= x < |s| && x !in order
    requires Shape(t, levels) && 0 <= i < levels
    requires LinkedWith(t, levels, i, x, t[x].maxlevel, [0] + Reaching(s, order[..n], i), Reaching(s, order[n..], i))
    ensures LinkedAt(t, levels, With(order, n, x), i)
  {
    WithReaching(s, t, order, n, x, i);
    Regroup([0], Reaching(s, order[..n], i), if t[x].maxlevel >= i then [x] else [], Reaching(s, order[n..], i));
  }

  lemma {:induction false} InsertedInv(s: seq<SkipNode>, t: seq<SkipNode>, levels: nat, order: seq<int>, level: int, x: int)
    requires Inv(s, levels, order, level) && Shape(t, levels) && SameFieldsBut(s, t, x)
    requires 0 < x < |s| && !s[x].valid && t[x].valid && 0 <= t[x].maxlevel <= level
    requires forall j :: 0 <= j < levels ==>
      LinkedWith(t, levels, j, x, t[x].maxlevel, Front(s, order, j, t[x].value), Rear(s, order, j, t[x].value))
    ensures var w := With(order, Cut(s, order, t[x].value), x);
            Inv(t, levels, w, level) && NodeEntries(t, w) == Inserted(NodeEntries(s, order), Entry(t[x].value, t[x].pid))
  {
    var v := t[x].value;
    var n := Cut(s, order, v);
    var w := With(order, n, x);
    WithIndices(|s|, order, n, x);
    WithEntries(s, t, order, n, x);
    InsertedSorted(NodeEntries(s, order), Entry(v, t[x].pid));
    SortedEntries(t, w);
    forall i | 0 <= i < levels ensures LinkedAt(t, levels, w, i) {
      assert LinkedWith(t, levels, i, x, t[x].maxlevel, Front(s, order, i, v), Rear(s, order, i, v));
      WithLinked(s, t, levels, order, n, x, i);
    }
  }

  lemma {:induction false} Regroup(h: seq<int>, a: seq<int>, m: seq<int>, b: seq<int>)
    ensures h + (a + m + b) == h + a + m + b
  {
  }

  lemma {:induction false} SortedEntries(s: seq<SkipNode>, order: seq<int>)
    requires Indices(|s|, order) && Sorted(NodeEntries(s, order))
    ensures SortedNodes(s, order)
  {
    var c := NodeEntries(s, order);
    forall j, k | 0 <= j < k < |order| ensures s[order[j]].value <= s[order[k]].value {
      assert c[j].value <= c[k].value;
    }
  }

  /** No node is free exactly when the list holds nproc entries. */
  lemma {:induction false} NodesInUse(s: seq<SkipNode>, order: seq<int>, nproc: nat)
    requires Occupied(s, order) && |s| == nproc + 1
    ensures |order| == nproc <==> forall k :: 1 <= k <= nproc ==> s[k].valid
  {
    var used := set x | x in order;
    var all := UpTo(nproc + 1) - {0};
    assert Distinct(order);
    DistinctCard(order);
    assert used <= all;
    if forall k :: 1 <= k <= nproc ==> s[k].valid {
      assert used == all;
    } else {
      var k :| 1 <= k <= nproc && !s[k].valid;
      SubsetCard(used, all - {k});
    }
  }

  lemma {:induction false} ReachingNone(s: seq<SkipNode>, a: seq<int>, j: int)
    requires forall x :: x in a ==> 0 <= x < |s| && s[x].maxlevel < j
    ensures Reaching(s, a, j) == []
  {
    if a != [] {
      assert a[0] in a && forall x :: x in a[1..] ==> x in a;
      ReachingNone(s, a[1..], j);
    }
  }

  lemma {:induction false} AboveLevel(s: seq<SkipNode>, order: seq<int>, level: int, j: int, v: int)
    requires Indices(|s|, order) && Leveled(s, order, level) && j > level
    ensures LastBelow(s, order, j, v) == 0
  {
    var a := order[..Cut(s, order, v)];
    assert forall x :: x in a ==> x in order;
    ReachingNone(s, a, j);
  }

  lemma {:induction false} AroundIndices(m: nat, p: seq<int>, x: int, q: seq<int>)
    requires Indices(m, p + q) && 0 <= x < m && x !in p && x !in q
    ensures Indices(m, p + [x] + q)
  {
    var c, d, n := p + q, p + [x] + q, |p|;
    assert d[n] == x && x !in c;
    assert forall k :: 0 <= k < |d| && k != n ==> d[k] == c[if k < n then k else k - 1];
  }

  lemma {:induction false} AroundRange(m: nat, p: seq<int>, x: int, q: seq<int>)
    requires Indices(m, p + [x] + q) && |p| > 0
    ensures 0 <= p[|p| - 1] < m && 0 <= x < m && (q != [] ==> 0 <= q[0] < m)
  {
    var d := p + [x] + q;
    assert d[|p| - 1] == p[|p| - 1] && d[|p|] == x;
    if q != [] { assert d[|p| + 1] == q[0]; }
  }

  lemma {:induction false} ReadyToLink(s: seq<SkipNode>, t: seq<SkipNode>, levels: nat, order: seq<int>, level: int, x: int, v: int, i: int)
    requires Inv(s, levels, order, level) && Shape(t, levels) && SameFieldsBut(s, t, x) && 0 <= i < levels
    requires 0 < x < |s| && !s[x].valid
    requires Fw(t, levels, i) == Fw(s, levels, i) && Bw(t, levels, i) == Bw(s, levels, i)
    ensures Insertable(t, levels, i, x, LastBelow(s, order, i, v), Front(s, order, i, v), Rear(s, order, i, v))
  {
    var n, p, q := Cut(s, order, v), Front(s, order, i, v), Rear(s, order, i, v);
    SplitAt(s, levels, order, level, i, v);
    ReachingMembers(s, order[..n], i);
    ReachingMembers(s, order[n..], i);
    assert forall y :: y in order[..n] || y in order[n..] ==> y in order;
    AroundIndices(|s|, p, x, q);
    assert (p + q)[|p| - 1] == p[|p| - 1];
    if q != [] { assert q[0] in q && (p + q)[|p|] == q[0]; }
  }

  /** Level j of t when slInsert's linking loop has done the levels below i; s is the list before. */
  ghost predicate Stage(t: seq<SkipNode>, levels: nat, s: seq<SkipNode>, order: seq<int>, v: int, x: int, i: int, j: int)
    requires Shape(t, levels) && 0 <= j < levels && Indices(|s|, order)
  {
    var p, q := Front(s, order, j, v), Rear(s, order, j, v);
    if j < i then Linked(Fw(t, levels, j), Bw(t, levels, j), p + [x] + q)
    else Insertable(t, levels, j, x, LastBelow(s, order, j, v), p, q)
  }

  ghost predicate Staged(t: seq<SkipNode>, levels: nat, s: seq<SkipNode>, order: seq<int>, v: int, x: int, i: int)
    requires Shape(t, levels) && Indices(|s|, order)
  {
    forall j :: 0 <= j < levels ==> Stage(t, levels, s, order, v, x, i, j)
  }

  lemma {:induction false} StageStep(t: seq<SkipNode>, u: seq<SkipNode>, levels: nat, s: seq<SkipNode>, order: seq<int>, v: int, x: int, i: int)
    requires SameBut(t, u, levels, i) && 0 <= i < levels && Indices(|s|, order)
    requires Staged(t, levels, s, order, v, x, i)
    requires Linked(Fw(u, levels, i), Bw(u, levels, i), Front(s, order, i, v) + [x] + Rear(s, order, i, v))
    ensures Staged(u, levels, s, order, v, x, i + 1)
  {
    var i' := i + 1;
    forall j | 0 <= j < levels ensures Stage(u, levels, s, order, v, x, i', j) {
      assert Stage(t, levels, s, order, v, x, i, j);
    }
  }

  lemma {:induction false} StageEnd(t: seq<SkipNode>, levels: nat, s: seq<SkipNode>, order: seq<int>, v: int, x: int, top: int)
    requires Shape(t, levels) && 0 <= top < levels && Indices(|s|, order)
    requires Staged(t, levels, s, order, v, x, top + 1)
    ensures forall j :: 0 <= j < levels ==>
      LinkedWith(t, levels, j, x, top, Front(s, order, j, v), Rear(s, order, j, v))
  {
    forall j | 0 <= j < levels ensures LinkedWith(t, levels, j, x, top, Front(s, order, j, v), Rear(s, order, j, v)) {
      assert Stage(t, levels, s, order, v, x, top + 1, j);
      assert Front(s, order, j, v) + [] == Front(s, order, j, v);
    }
  }

  lemma {:induction false} Ready(s: seq<SkipNode>, t: seq<SkipNode>, levels: nat, order: seq<int>, level: int, x: int, v: int)
    requires Inv(s, levels, order, level) && Shape(t, levels) && SameFieldsBut(s, t, x)
    requires 0 < x < |s| && !s[x].valid
    requires forall i :: 0 <= i < levels ==> Fw(t, levels, i) == Fw(s, levels, i) && Bw(t, levels, i) == Bw(s, levels, i)
    ensures Staged(t, levels, s, order, v, x, 0)
  {
    forall j | 0 <= j < levels ensures Stage(t, levels, s, order, v, x, 0, j) {
      ReadyToLink(s, t, levels, order, level, x, v, j);
    }
  }

  /** Level i before and after position n of `order`, the sentinel included. */
  ghost function Before(s: seq<SkipNode>, order: seq<int>, n: nat, i: int): seq<int>
    requires n < |order|
  {
    [0] + Reaching(s, order[..n], i)
  }

  ghost function After(s: seq<SkipNode>, order: seq<int>, n: nat, i: int): seq<int>
    requires n < |order|
  {
    Reaching(s, order[n + 1..], i)
  }

  lemma {:induction false} LinkedAround(s: seq<SkipNode>, levels: nat, order: seq<int>, n: nat, i: int)
    requires Shape(s, levels) && 0 <= i < levels && LinkedAt(s, levels, order, i)
    requires n < |order| && 0 <= order[n] < |s|
    ensures LinkedWith(s, levels, i, order[n], s[order[n]].maxlevel, Before(s, order, n, i), After(s, order, n, i))
  {
    var x, a, b := order[n], order[..n], order[n + 1..];
    assert order == a + ([x] + b);
    ReachingAround(s, a, x, b, i);
    Regroup([0], Reaching(s, a, i), if s[x].maxlevel >= i then [x] else [], Reaching(s, b, i));
  }

  lemma {:induction false} WithoutIndices(m: nat, order: seq<int>, n: nat)
    requires Indices(m, order) && n < |order|
    ensures Indices(m, Without(order, n))
    ensures forall y :: y in Without(order, n) <==> y in order && y != order[n]
  {
    var w := Without(order, n);
    forall k | 0 <= k < |order| && k != n ensures order[k] in w {
      assert order[k] == w[if k < n then k else k - 1];
    }
  }

  lemma {:induction false} WithoutLinked(s: seq<SkipNode>, t: seq<SkipNode>, levels: nat, order: seq<int>, n: nat, i: int)
    requires n < |order| && SameFieldsBut(s, t, order[n]) && Indices(|s|, order)
    requires Shape(t, levels) && 0 <= i < levels
    requires Linked(Fw(t, levels, i), Bw(t, levels, i), Before(s, order, n, i) + After(s, order, n, i))
    ensures LinkedAt(t, levels, Without(order, n), i)
  {
    var a, b := order[..n], order[n + 1..];
    assert order[n] !in a && order[n] !in b;
    ReachingFrame(s, t, a, i);
    ReachingFrame(s, t, b, i);
    ReachingSplit(t, a, b, i);
    assert [0] + (Reaching(s, a, i) + Reaching(s, b, i)) == [0] + Reaching(s, a, i) + Reaching(s, b, i);
  }

  lemma {:induction false} WithoutEntries(s: seq<SkipNode>, t: seq<SkipNode>, order: seq<int>, n: nat)
    requires n < |order| && SameFieldsBut(s, t, order[n]) && Indices(|s|, order) && Indices(|s|, Without(order, n))
    ensures NodeEntries(t, Without(order, n)) == NodeEntries(s, order)[..n] + NodeEntries(s, order)[n + 1..]
  {
    assert forall k :: 0 <= k < |order| && k != n ==> order[k] != order[n];
  }

  lemma {:induction false} RemovedInv(s: seq<SkipNode>, t: seq<SkipNode>, levels: nat, order: seq<int>, level: int, n: nat)
    requires Inv(s, levels, order, level) && Shape(t, levels)
    requires n < |order| && SameFieldsBut(s, t, order[n]) && !t[order[n]].valid
    requires forall i :: 0 <= i < levels ==>
      Linked(Fw(t, levels, i), Bw(t, levels, i), Before(s, order, n, i) + After(s, order, n, i))
    ensures Inv(t, levels, Without(order, n), level)
    ensures NodeEntries(t, Without(order, n)) == NodeEntries(s, order)[..n] + NodeEntries(s, order)[n + 1..]
  {
    var w := Without(order, n);
    WithoutIndices(|s|, order, n);
    WithoutEntries(s, t, order, n);
    forall i | 0 <= i < levels ensures LinkedAt(t, levels, w, i) {
      WithoutLinked(s, t, levels, order, n, i);
    }
  }

  // ---------------------------------------------------------------- the list

  class SkipList {
    const nproc: nat
    const levels: nat
    var level: int
    const nodeList: array<SkipNode>
    ghost var order: seq<int>

    ghost predicate Allocated()
      reads this, nodeList
    {
      nproc > 0 && levels > 0 && nodeList.Length == nproc + 1 && Shape(nodeList[..], levels)
    }

    ghost predicate Valid()
      reads this, nodeList
    {
      Allocated() && Inv(nodeList[..], levels, order, level)
    }

    ghost function Contents(): seq<Entry>
      requires Valid()
      reads this, nodeList
    {
      NodeEntries(nodeList[..], order)
    }

    lemma {:induction false} Started()
      requires Valid()
      ensures 0 <= level < levels
    {
    }

    /** The while loop of slInsert and slSearch on one level, along the front p of that level. */
    method Advance(v: int, i: int, start: int, ghost p: seq<int>) returns (cur: int)
      requires forall k :: 0 <= k < |p| ==> Follows(nodeList[..], p, k, i, v)
      requires start in p
      ensures cur == p[|p| - 1] && cur in p
    {
      cur := start;
      ghost var k :| 0 <= k < |p| && p[k] == start;
      assert Follows(nodeList[..], p, k, i, v);
      while nodeList[cur].forward[i] != -1
        && nodeList[nodeList[cur].forward[i]].valid
        && nodeList[nodeList[cur].forward[i]].value < v
        invariant 0 <= k < |p| && cur == p[k] && Follows(nodeList[..], p, k, i, v)
        decreases |p| - k
      {
        cur := nodeList[cur].forward[i];
        k := k + 1;
        assert Follows(nodeList[..], p, k, i, v);
      }
    }

    constructor (nproc: nat, levels: nat)
      requires nproc > 0 && levels > 0
      ensures Allocated() && level == -1 && this.nproc == nproc && this.levels == levels
      ensures fresh(nodeList)
    {
      this.nproc, this.levels := nproc, levels;
      level := -1;
      var zero := SkipNode(false, 0, 0, 0, seq(levels, _ => 0), seq(levels, _ => 0));
      nodeList := new SkipNode[nproc + 1](_ => zero);
      order := [];
    }

    /** initSkipList: the sentinel alone. */
    method Init()
      requires Allocated()
      modifies this`level, this`order, nodeList
      ensures Valid() && Contents() == []
    {
      level := 0;
      var none := seq(levels, _ => -1);
      nodeList[0] := SkipNode(true, -1, -1, levels, none, none);
      for i := 1 to nproc + 1
        invariant level == 0 && Shape(nodeList[..], levels)
        invariant nodeList[0] == SkipNode(true, -1, -1, levels, none, none)
        invariant forall k :: 1 <= k < i ==> !nodeList[k].valid
      {
        nodeList[i] := SkipNode(false, -1, -1, nodeList[i].maxlevel, none, none);
      }
      order := [];
      assert forall i :: 0 <= i < levels ==> LinkedAt(nodeList[..], levels, [], i);
    }

    /** slFindFreeNode: the first node not in use, or -1. */
    method FindFreeNode() returns (r: int)
      requires nproc > 0 && nodeList.Length == nproc + 1
      ensures r == -1 || 1 <= r <= nproc
      ensures r == -1 ==> forall k :: 1 <= k <= nproc ==> nodeList[k].valid
      ensures r != -1 ==> !nodeList[r].valid && forall k :: 1 <= k < r ==> nodeList[k].valid
    {
      r := 1;
      while r < nproc + 1
        invariant 1 <= r <= nproc
        invariant forall k :: 1 <= k < r ==> nodeList[k].valid
      {
        if !nodeList[r].valid { break; }
        if r == nproc { return -1; }
        r := r + 1;
      }
    }

    /** The descent of slSearch: down to the last node below v on the bottom level. */
    method Descend(v: int) returns (cur: int)
      requires Valid()
      ensures cur == LastBelow(nodeList[..], order, 0, v)
    {
      cur := 0;
      var i := level;
      while i > 0
        invariant 0 <= i <= level
        invariant cur in Front(nodeList[..], order, i, v)
      {
        FrontFollows(nodeList[..], levels, order, level, i, v);
        cur := Advance(v, i, cur, Front(nodeList[..], order, i, v));
        LowerFront(nodeList[..], order, i, v);
        i := i - 1;
      }
      FrontFollows(nodeList[..], levels, order, level, 0, v);
      cur := Advance(v, 0, cur, Front(nodeList[..], order, 0, v));
    }

    /** The walk of slSearch over the entries with the searched value. */
    method Scan(value: int, pid: int, start: int, ghost c: seq<Entry>, ghost from: nat) returns (r: int, ghost at: nat)
      requires BottomRow(nodeList[..], order, c)
      requires from <= |order| && start == ([0] + order)[from]
      requires forall k :: 0 <= k < from ==> c[k].value < value
      requires forall k :: from <= k < |order| ==> c[k].value >= value
      requires Sorted(c)
      ensures r == 0 ==> Entry(value, pid) !in c
      ensures r != 0 ==> at < |order| && r == order[at] && FirstAt(c, Entry(value, pid), at)
    {
      at := from;
      var cur := start;
      assert OnBottom(nodeList[..], order, at, cur);
      while nodeList[cur].forward[0] != -1
        && nodeList[nodeList[cur].forward[0]].valid
        && nodeList[nodeList[cur].forward[0]].value == value
        invariant at <= |order| && OnBottom(nodeList[..], order, at, cur)
        invariant forall k :: 0 <= k < at ==> c[k] != Entry(value, pid)
        invariant from <= at
        decreases |order| - at
      {
        cur := nodeList[cur].forward[0];
        if nodeList[cur].pid == pid { return cur, at; }
        at := at + 1;
        assert OnBottom(nodeList[..], order, at, ([0] + order)[at]);
      }
      r := 0;
    }

    /** The sentinel's forward link on level 0: the first node, or -1. */
    method First() returns (r: int)
      requires Valid()
      ensures Contents() == [] ==> r == -1
      ensures Contents() != [] ==> r == order[0] && 0 < r < nodeList.Length && nodeList[r].valid
      ensures Contents() != [] ==> Contents()[0] == Entry(nodeList[r].value, nodeList[r].pid)
    {
      BottomStep(nodeList[..], levels, order, level, 0);
      assert ([0] + order)[0] == 0;
      r := nodeList[0].forward[0];
    }

    /** slSearch: the first node holding (value, pid), or 0 for none. */
    method Search(value: int, pid: int) returns (r: int, ghost at: nat)
      requires Allocated() && (level == -1 || Valid())
      ensures level == -1 ==> r == 0
      ensures level != -1 ==> (r != 0 <==> Entry(value, pid) in Contents())
      ensures level != -1 && r != 0 ==> at < |order| && r == order[at] && FirstAt(Contents(), Entry(value, pid), at)
    {
      if level == -1 { return 0, 0; }
      var cur := Descend(value);
      ghost var s := nodeList[..];
      LastBelowZero(s, order, value);
      BottomRowHolds(s, levels, order, level);
      CutEntries(s, order, value);
      r, at := Scan(value, pid, cur, Contents(), Cut(s, order, value));
      assert r != 0 ==> Contents()[at] == Entry(value, pid);
    }

    method WriteForward(k: int, i: int, v: int)
      requires Shape(nodeList[..], levels) && 0 <= k < nodeList.Length && 0 <= i < levels
      modifies nodeList
      ensures nodeList[..] == SetForward(old(nodeList[..]), levels, k, i, v)
    {
      nodeList[k] := nodeList[k].(forward := nodeList[k].forward[i := v]);
    }

    method WriteBackward(k: int, i: int, v: int)
      requires Shape(nodeList[..], levels) && 0 <= k < nodeList.Length && 0 <= i < levels
      modifies nodeList
      ensures nodeList[..] == SetBackward(old(nodeList[..]), levels, k, i, v)
    {
      nodeList[k] := nodeList[k].(backward := nodeList[k].backward[i := v]);
    }

    /** One turn of slInsert's linking loop: x goes between b and its successor on level i. */
    method LinkIn(i: int, b: int, x: int, ghost p: seq<int>, ghost q: seq<int>)
      requires Shape(nodeList[..], levels) && 0 <= i < levels
      requires Linked(Fw(nodeList[..], levels, i), Bw(nodeList[..], levels, i), p + q)
      requires |p| > 0 && b == p[|p| - 1] && Indices(nodeList.Length, p + [x] + q)
      requires 0 <= b < nodeList.Length && 0 <= x < nodeList.Length
      requires q != [] ==> 0 <= q[0] < nodeList.Length && nodeList[q[0]].valid
      modifies nodeList
      ensures SameBut(old(nodeList[..]), nodeList[..], levels, i)
      ensures Linked(Fw(nodeList[..], levels, i), Bw(nodeList[..], levels, i), p + [x] + q)
    {
      ghost var s := nodeList[..];
      SpliceIn(Fw(s, levels, i), Bw(s, levels, i), p, q, b, x);
      var f := nodeList[b].forward[i];
      if f != -1 && nodeList[f].valid {
        WriteForward(x, i, f);
        WriteBackward(f, i, x);
      } else {
        WriteForward(x, i, -1);
      }
      WriteBackward(x, i, b);
      WriteForward(b, i, x);
    }

    /** One turn of slDelete's unlinking loop. */
    method LinkOut(i: int, x: int, ghost p: seq<int>, ghost q: seq<int>)
      requires Shape(nodeList[..], levels) && 0 <= i < levels
      requires Linked(Fw(nodeList[..], levels, i), Bw(nodeList[..], levels, i), p + [x] + q)
      requires |p| > 0
      modifies nodeList
      ensures SameBut(old(nodeList[..]), nodeList[..], levels, i)
      ensures Linked(Fw(nodeList[..], levels, i), Bw(nodeList[..], levels, i), p + q)
    {
      ghost var s := nodeList[..];
      AroundRange(nodeList.Length, p, x, q);
      SpliceOut(Fw(s, levels, i), Bw(s, levels, i), p, q, p[|p| - 1], x);
      var b := nodeList[x].backward[i];
      if nodeList[x].forward[i] != -1 {
        WriteForward(b, i, nodeList[x].forward[i]);
        WriteBackward(nodeList[x].forward[i], i, nodeList[x].backward[i]);
      } else {
        WriteForward(b, i, -1);
      }
      WriteForward(x, i, -1);
      WriteBackward(x, i, -1);
    }

    /** The descent of slInsert: on every level in use, the last node below v. */
    method BackNodes(v: int) returns (back: seq<int>)
      requires Valid()
      ensures |back| == levels
      ensures forall j :: 0 <= j <= level ==> back[j] == LastBelow(nodeList[..], order, j, v)
    {
      back := seq(levels, _ => -1);
      var cur := 0;
      var i := level;
      while i >= 0
        invariant -1 <= i <= level && |back| == levels
        invariant cur in Front(nodeList[..], order, i, v)
        invariant forall j :: i < j <= level ==> back[j] == LastBelow(nodeList[..], order, j, v)
      {
        FrontFollows(nodeList[..], levels, order, level, i, v);
        cur := Advance(v, i, cur, Front(nodeList[..], order, i, v));
        back := back[i := cur];
        LowerFront(nodeList[..], order, i, v);
        i := i - 1;
      }
    }

    /** slInsert's linking loop, for a node x that is on no chain yet; s is the list before x was filled in. */
    method LinkLevels(x: int, v: int, newLevel: int, back: seq<int>, ghost s: seq<SkipNode>)
      requires Shape(nodeList[..], levels) && 0 <= newLevel < levels && Indices(|s|, order)
      requires |back| == levels && 0 <= x < nodeList.Length
      requires forall j :: 0 <= j <= newLevel ==> back[j] == LastBelow(s, order, j, v)
      requires Staged(nodeList[..], levels, s, order, v, x, 0)
      modifies nodeList
      ensures Shape(nodeList[..], levels) && SameFields(old(nodeList[..]), nodeList[..])
      ensures forall j :: 0 <= j < levels ==>
        LinkedWith(nodeList[..], levels, j, x, newLevel, Front(s, order, j, v), Rear(s, order, j, v))
    {
      hide Linked, Front, Rear, Cut, Fw, Bw, Indices;
      for i := 0 to newLevel + 1
        invariant Shape(nodeList[..], levels) && SameFields(old(nodeList[..]), nodeList[..])
        invariant Staged(nodeList[..], levels, s, order, v, x, i)
      {
        ghost var u := nodeList[..];
        ghost var p, q := Front(s, order, i, v), Rear(s, order, i, v);
        assert Insertable(u, levels, i, x, back[i], p, q) by { assert Stage(u, levels, s, order, v, x, i, i); }
        LinkIn(i, back[i], x, p, q);
        StageStep(u, nodeList[..], levels, s, order, v, x, i);
      }
      StageEnd(nodeList[..], levels, s, order, v, x, newLevel);
    }

    /** Steps 1 and 2 of slInsert: find the nodes to link behind and raise the list's level. */
    method Prepare(value: int, newLevel: int) returns (back: seq<int>)
      requires Valid() && 0 <= newLevel < levels
      modifies this`level
      ensures Valid() && level == if newLevel > old(level) then newLevel else old(level)
      ensures |back| == levels
      ensures forall j :: 0 <= j <= newLevel ==> back[j] == LastBelow(nodeList[..], order, j, value)
    {
      back := BackNodes(value);
      if newLevel > level {
        for i := level + 1 to newLevel + 1
          invariant |back| == levels && level == old(level)
          invariant forall j :: 0 <= j <= level ==> back[j] == LastBelow(nodeList[..], order, j, value)
          invariant forall j :: level < j < i ==> back[j] == LastBelow(nodeList[..], order, j, value)
        {
          AboveLevel(nodeList[..], order, level, i, value);
          back := back[i := 0];
        }
        level := newLevel;
      }
    }

    /** Steps 4 and 5 of slInsert: fill in node x and link it. */
    method Place(x: int, value: int, pid: int, newLevel: int, back: seq<int>)
      requires Valid() && 0 <= newLevel <= level
      requires 0 < x < nodeList.Length && !nodeList[x].valid
      requires |back| == levels
      requires forall j :: 0 <= j <= newLevel ==> back[j] == LastBelow(nodeList[..], order, j, value)
      modifies this`order, nodeList
      ensures Valid()
      ensures Contents() == Inserted(old(Contents()), Entry(value, pid))
      ensures nodeList[x].valid && nodeList[x].value == value && nodeList[x].pid == pid && nodeList[x].maxlevel == newLevel
      ensures SameFieldsBut(old(nodeList[..]), nodeList[..], x)
    {
      ghost var s := nodeList[..];
      nodeList[x] := nodeList[x].(value := value, pid := pid, valid := true, maxlevel := newLevel);
      Ready(s, nodeList[..], levels, order, level, x, value);
      LinkLevels(x, value, newLevel, back, s);
      InsertedInv(s, nodeList[..], levels, order, level, x);
      order := With(order, Cut(s, order, value), x);
    }

    /** slInsert.  newLevel is the level drawn by slUpLevel.  Returns 0, or -1 when no node is free. */
    method Insert(value: int, pid: int, newLevel: int) returns (r: int, ghost x: int)
      requires Allocated() && (level == -1 || Valid())
      requires 0 <= newLevel < levels
      modifies this`level, this`order, nodeList
      ensures r == 0 || r == -1
      ensures r == 0 ==> 0 < x < nodeList.Length && !old(nodeList[x].valid) && (forall y :: 0 < y < x ==> old(nodeList[y].valid))
      ensures r == 0 ==> nodeList[x].valid && nodeList[x].value == value && nodeList[x].pid == pid && nodeList[x].maxlevel == newLevel
      ensures r == 0 ==> SameFieldsBut(old(nodeList[..]), nodeList[..], x)
      ensures old(level) != -1 ==> level == if newLevel > old(level) then newLevel else old(level)
      ensures old(level) == -1 ==> r == -1 && level == -1 && nodeList[..] == old(nodeList[..])
      ensures old(level) != -1 ==> Valid()
      ensures old(level) != -1 ==> (r == -1 <==> |old(Contents())| == nproc)
      ensures old(level) != -1 ==>
        Contents() == if r == 0 then Inserted(old(Contents()), Entry(value, pid)) else old(Contents())
    {
      if level == -1 { return -1, -1; }
      var back := Prepare(value, newLevel);
      var free := FindFreeNode();
      NodesInUse(nodeList[..], order, nproc);
      if free == -1 { return -1, -1; }
      Place(free, value, pid, newLevel, back);
      r, x := 0, free;
    }

    /** slDelete's unlinking loop for the node at position n of `order`; s is the list before it. */
    method UnlinkLevels(x: int, ghost n: nat, ghost s: seq<SkipNode>)
      requires Shape(nodeList[..], levels) && n < |order| && x == order[n]
      requires 0 <= x < nodeList.Length && 0 <= nodeList[x].maxlevel < levels
      requires forall j :: 0 <= j < levels ==>
        LinkedWith(nodeList[..], levels, j, x, nodeList[x].maxlevel, Before(s, order, n, j), After(s, order, n, j))
      modifies nodeList
      ensures Shape(nodeList[..], levels) && SameFields(old(nodeList[..]), nodeList[..])
      ensures forall j :: 0 <= j < levels ==>
        Linked(Fw(nodeList[..], levels, j), Bw(nodeList[..], levels, j), Before(s, order, n, j) + After(s, order, n, j))
    {
      hide Linked, After, Reaching, Fw, Bw;
      ghost var top := nodeList[x].maxlevel;
      var i := nodeList[x].maxlevel;
      forall j | top < j < levels
        ensures Linked(Fw(nodeList[..], levels, j), Bw(nodeList[..], levels, j), Before(s, order, n, j) + After(s, order, n, j))
      {
        assert LinkedWith(nodeList[..], levels, j, x, top, Before(s, order, n, j), After(s, order, n, j));
        assert Before(s, order, n, j) + [] == Before(s, order, n, j);
      }
      while i >= 0
        invariant i <= top && nodeList[x].maxlevel == top
        invariant Shape(nodeList[..], levels) && SameFields(old(nodeList[..]), nodeList[..])
        invariant forall j :: 0 <= j <= i ==>
          LinkedWith(nodeList[..], levels, j, x, top, Before(s, order, n, j), After(s, order, n, j))
        invariant forall j :: 0 <= j < levels && i < j ==>
          Linked(Fw(nodeList[..], levels, j), Bw(nodeList[..], levels, j), Before(s, order, n, j) + After(s, order, n, j))
      {
        LinkOut(i, x, Before(s, order, n, i), After(s, order, n, i));
        i := i - 1;
      }
    }

    /** The part of slDelete after the search. */
    method Unlink(x: int, ghost n: nat)
      requires Valid() && n < |order| && x == order[n]
      modifies this`order, nodeList
      ensures Valid()
      ensures Contents() == old(Contents())[..n] + old(Contents())[n + 1..]
      ensures nodeList[x] == old(nodeList[x]).(valid := false, forward := nodeList[x].forward, backward := nodeList[x].backward)
    {
      ghost var s := nodeList[..];
      assert x in order;
      forall j | 0 <= j < levels
        ensures LinkedWith(s, levels, j, x, s[x].maxlevel, Before(s, order, n, j), After(s, order, n, j))
      {
        LinkedAround(s, levels, order, n, j);
      }
      UnlinkLevels(x, n, s);
      ghost var u := nodeList[..];
      nodeList[x] := nodeList[x].(valid := false);
      assert forall j :: 0 <= j < levels ==> Fw(nodeList[..], levels, j) == Fw(u, levels, j);
      assert forall j :: 0 <= j < levels ==> Bw(nodeList[..], levels, j) == Bw(u, levels, j);
      RemovedInv(s, nodeList[..], levels, order, level, n);
      order := Without(order, n);
    }

    /** slDelete: the first node holding (value, pid) leaves the list.  Returns it, or 0 for none. */
    method Delete(value: int, pid: int) returns (r: int, ghost at: nat)
      requires Allocated() && (level == -1 || Valid())
      modifies this`order, nodeList
      ensures level == -1 ==> r == 0 && nodeList[..] == old(nodeList[..])
      ensures level != -1 ==> Valid()
      ensures level != -1 ==> Contents() == Removed(old(Contents()), Entry(value, pid))
      ensures level != -1 ==> (r != 0 <==> Entry(value, pid) in old(Contents()))
      ensures r != 0 ==> 0 < r < nodeList.Length && nodeList[r].value == value && nodeList[r].pid == pid
      ensures r != 0 ==> at < |old(order)| && r == old(order)[at] && FirstAt(old(Contents()), Entry(value, pid), at)
    {
      r, at := Search(value, pid);
      if r == 0 {
        if level != -1 { RemovedAbsent(Contents(), Entry(value, pid)); }
        return;
      }
      RemovedAt(Contents(), Entry(value, pid), at);
      assert Contents()[at] == Entry(value, pid);
      assert r in order;
      Unlink(r, at);
    }
  }
}
