/** Finite counting shared by the other modules. */
module Counting {

  /** The integers 0 .. n-1. */
  ghost function UpTo(n: nat): (s: set<int>)
    ensures forall x :: x in s <==> 0 <= x < n
    ensures |s| == n
  {
    if n == 0 then {} else UpTo(n - 1) + {n - 1}
  }

  /** The integers lo .. lo+n-1. */
  ghost function Span(lo: int, n: nat): (s: set<int>)
    ensures forall x :: x in s <==> lo <= x < lo + n
    ensures |s| == n
  {
    if n == 0 then {} else Span(lo, n - 1) + {lo + n - 1}
  }

  lemma {:induction false} SubsetCard<T>(a: set<T>, b: set<T>)
    requires a <= b
    ensures |a| <= |b|
  {
    if x :| x in a { SubsetCard(a - {x}, b - {x}); }
  }

  ghost predicate Distinct<T>(c: seq<T>) {
    forall i, j :: 0 <= i < j < |c| ==> c[i] != c[j]
  }

  lemma {:induction false} DistinctCard<T>(c: seq<T>)
    requires Distinct(c)
    ensures |set x | x in c| == |c|
  {
    if c != [] {
      DistinctCard(c[1..]);
      assert (set x | x in c) == {c[0]} + set x | x in c[1..];
    }
  }
}
