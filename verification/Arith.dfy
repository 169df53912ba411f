/** Division facts that the solver does not find on its own. */
module Arith {

  lemma {:induction false} MulGap(a: nat, b: nat, n: nat)
    requires a < b
    ensures a * n + n <= b * n
    decreases b
  {
    assert b * n == (b - 1) * n + n;
    if a < b - 1 {
      MulGap(a, b - 1, n);
    }
  }

  lemma MulLe(a: nat, b: nat, n: nat)
    requires a <= b
    ensures a * n <= b * n
  {
    if a < b {
      MulGap(a, b, n);
    }
  }

  /** Quotient and remainder are determined by their defining equation. */
  lemma DivModUnique(x: nat, n: nat, q: nat, r: nat)
    requires x == q * n + r && r < n
    ensures x / n == q && x % n == r
  {
    var q' := x / n;
    assert x == q' * n + x % n;
    if q' < q {
      MulGap(q', q, n);
    } else if q < q' {
      MulGap(q, q', n);
    }
  }

  lemma Divide(x: nat, n: nat) returns (q: nat, r: nat)
    requires n > 0
    ensures q == x / n && r == x % n && x == q * n + r && r < n
  {
    q, r := x / n, x % n;
  }

  lemma ModDouble(i: nat, n: nat)
    requires n > 0
    ensures i % (2 * n) % n == i % n
  {
    var q, m := Divide(i, 2 * n);
    DoubleProduct(q, n);
    if m < n {
      DivModUnique(i, n, 2 * q, m);
      DivModUnique(m, n, 0, m);
    } else {
      DivModUnique(i, n, 2 * q + 1, m - n);
      DivModUnique(m, n, 1, m - n);
    }
  }

  lemma DoubleProduct(q: nat, n: nat)
    ensures q * (2 * n) == (2 * q) * n
    ensures (2 * q + 1) * n == (2 * q) * n + n
  {
  }
}
