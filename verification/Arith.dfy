/** Multiplication and division of naturals. */
module Arith {

  lemma {:induction false} DivNonNeg(a: nat, n: nat)
    requires n > 0
    ensures a / n >= 0
  {
  }

  lemma {:induction false} MulMono(a: nat, b: nat, m: nat)
    requires a <= b
    ensures a * m <= b * m
  {
  }

  lemma {:induction false} DivBounds(a: nat, n: nat)
    requires n > 0
    ensures 0 <= a / n && (a / n) * n <= a < (a / n) * n + n && a == (a / n) * n + a % n
  {
  }

  lemma {:induction false} DivBelow(q: nat, n: nat, m: nat, a: nat)
    requires q * n <= a < m * n
    ensures q < m
  {
    if q >= m { MulMono(m, q, n); }
  }

  lemma {:induction false} MulStrict(p: nat, q: nat, n: nat)
    ensures p < q ==> p * n + n <= q * n
  {
    if p < q { MulMono(p + 1, q, n); }
  }

  lemma {:induction false} DivStep(q: nat, n: nat, r: nat)
    requires r < n
    ensures (q * n + r) / n == q && (q * n + r) % n == r
  {
    var a := q * n + r;
    DivBounds(a, n);
    MulStrict(a / n, q, n);
    MulStrict(q, a / n, n);
  }

  lemma {:induction false} DivMono(a: nat, c: nat, b: nat)
    requires b > 0 && a <= c
    ensures a / b <= c / b
  {
    DivBounds(a, b);
    DivBounds(c, b);
    MulStrict(c / b, a / b, b);
  }
}
