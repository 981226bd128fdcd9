/** Facts about division and multiplication of natural numbers that the solver
    does not find by itself. */
module Arithmetic {

  /** A product under a name, so that it can be hidden. */
  function Scaled(amount: nat, scalar: nat): nat {
    amount * scalar
  }

  lemma ScaledIs(a: nat, b: nat)
    ensures Scaled(a, b) == a * b
  {
  }

  lemma ScaledNext(a: nat, b: nat)
    ensures Scaled(a, b + 1) == Scaled(a, b) + a && Scaled(a + 1, b) == Scaled(a, b) + b
  {
  }

  lemma ScaledBounds(a: nat, b: nat)
    ensures b > 0 ==> a <= Scaled(a, b)
    ensures b == 0 ==> Scaled(a, b) == 0
  {
    if b > 0 {
      MulMono(a, 1, b);
    }
  }

  lemma MulMono(a: nat, x: int, y: int)
    requires x <= y
    ensures a * x <= a * y
  {
  }

  lemma QuotientBounds(c: nat, a: nat)
    requires a > 0
    ensures a * (c / a) <= c < a * (c / a) + a
    ensures c % a == c - a * (c / a)
  {
  }

  lemma DivUnique(x: nat, d: nat, q: nat)
    requires d > 0 && d * q <= x < d * q + d
    ensures x / d == q
  {
    QuotientBounds(x, d);
    var p := x / d;
    if p < q { MulMono(d, p + 1, q); } else if p > q { MulMono(d, q + 1, p); }
  }

  lemma MulDivCancel(a: nat, b: nat)
    requires a > 0
    ensures (a * b) / a == b
  {
    DivUnique(a * b, a, b);
  }

  lemma MulMod(q: nat, m: nat)
    requires m > 0
    ensures (m * q) % m == 0
  {
    MulDivCancel(m, q);
    QuotientBounds(m * q, m);
  }

  /** The ceiling of a quotient. */
  lemma CeilBounds(n: nat, m: nat)
    requires m > 0
    ensures var c := (n + m - 1) / m; n <= m * c < n + m
    ensures n % m == 0 ==> m * ((n + m - 1) / m) == n
  {
    var c := (n + m - 1) / m;
    QuotientBounds(n + m - 1, m);
    if n % m == 0 {
      var q := n / m;
      QuotientBounds(n, m);
      DivUnique(n + m - 1, m, q);
    }
  }

  lemma CeilUnique(n: nat, m: nat, c: nat)
    requires m > 0 && n <= m * c < n + m
    ensures (n + m - 1) / m == c
  {
    DivUnique(n + m - 1, m, c);
  }
}
