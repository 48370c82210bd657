/** The few facts about products and quotients that several components need. */
module Arithmetic {

  lemma OneMore(a: nat, n: nat)
    requires n > 0
    ensures a * n == a * (n - 1) + a
  {
  }

  lemma {:induction false} ProductsKeepOrder(a: nat, b: nat, n: nat)
    requires a <= b
    ensures a * n <= b * n
  {
    if n > 0 {
      ProductsKeepOrder(a, b, n - 1);
      OneMore(a, n);
      OneMore(b, n);
    }
  }

  lemma DivideParts(x: nat, n: nat)
    requires n > 0
    ensures x / n * n <= x < (x / n + 1) * n
  {
  }

  lemma QuotientIsNat(x: nat, n: nat)
    requires n > 0
    ensures x / n >= 0
  {
  }

  lemma Distributes(a: nat, b: nat, c: nat)
    ensures a * (b + c) == a * b + a * c
  {
  }

  lemma Reassociates(a: nat, b: nat, c: nat)
    ensures a * b * c == a * (c * b)
  {
    assert a * b * c == a * (b * c);
  }

  /** The quotient is the only number whose multiples enclose the dividend. */
  lemma QuotientIs(n: nat, d: nat, q: nat)
    requires d > 0 && q * d <= n < (q + 1) * d
    ensures n / d == q
  {
    DivideParts(n, d);
    if n / d < q { ProductsKeepOrder(n / d + 1, q, d); }
    if q < n / d { ProductsKeepOrder(q + 1, n / d, d); }
  }

  /** Dividing twice is dividing by the product. */
  lemma DivideTwice(n: nat, a: nat, b: nat)
    requires a > 0 && b > 0
    ensures a * b > 0 && n / a / b == n / (a * b)
  {
    var p := n / a;
    var q := p / b;
    DivideParts(n, a);
    DivideParts(p, b);
    ProductsKeepOrder(q * b, p, a);
    ProductsKeepOrder(p + 1, (q + 1) * b, a);
    Reassociates(q, b, a);
    Reassociates(q + 1, b, a);
    Positive(a, b);
    QuotientIs(n, a * b, q);
  }

  lemma Positive(a: nat, b: nat)
    requires a > 0 && b > 0
    ensures a * b > 0
  {
  }
}
