/** Facts about products that the credit arguments use one at a time. */
module Arithmetic {

  lemma {:induction false} Distribute(m: int, x: int, y: int)
    ensures m * (x + y) == m * x + m * y
    ensures m * (x - y) == m * x - m * y
  {
  }

  lemma {:induction false} ProductOrder(m: int, x: int, y: int)
    requires m > 0
    ensures x < y <==> m * x < m * y
    ensures x == y <==> m * x == m * y
  {
    if x < y {
      assert m * (y - x) > 0;
    } else if y < x {
      assert m * (x - y) > 0;
    }
  }

  /** A multiple of m above -m is at least zero. */
  lemma {:induction false} MultipleAboveMinus(m: int, x: int)
    requires m > 0 && m * x > -m
    ensures x >= 0
  {
    ProductOrder(m, -1, x);
  }

  /** Quotient and remainder are determined by the equation between them. */
  lemma {:induction false} DivisionIs(z: int, m: int, q: int, r: int)
    requires m > 0 && 0 <= r < m && z == m * q + r
    ensures z / m == q && z % m == r
  {
    var q', r' := z / m, z % m;
    assert z == m * q' + r';
    Distribute(m, q, q');
    ProductOrder(m, q - q', 1);
    ProductOrder(m, -1, q - q');
  }

  lemma {:induction false} QuotientAtLeast(z: int, m: int, x: int)
    requires m > 0 && m * x <= z
    ensures x <= z / m
  {
    var q, r := z / m, z % m;
    assert z == m * q + r;
    Distribute(m, q, 1);
    ProductOrder(m, x, q + 1);
  }

  lemma {:induction false} MultipleHasNoRemainder(m: int, k: int)
    requires m > 0
    ensures (m * k) % m == 0 && (m * k) / m == k
  {
    DivisionIs(m * k, m, k, 0);
  }

  /** If m divides a, then a - m * p cannot lie strictly between -m and 0. */
  lemma {:induction false} DivisibleAboveMinus(m: int, a: int, p: int)
    requires m > 0 && a % m == 0 && a - m * p > -m
    ensures a - m * p >= 0
  {
    var q := a / m;
    assert a == m * q;
    Distribute(m, q, p);
    MultipleAboveMinus(m, q - p);
  }

  /** One step of a ledger c == t * x - m * p, on which p may or may not advance. */
  lemma {:induction false} LedgerStep(t: int, x: int, m: int, p: int, hit: bool, c: int)
    requires c == t * x - m * p
    ensures c + x - (if hit then m else 0) == (t + 1) * x - m * (if hit then p + 1 else p)
  {
    Distribute(m, p, 1);
  }

  lemma {:induction false} Reorder(k: int, m: int, x: int)
    ensures (k * m) * x == m * (k * x)
  {
  }

  lemma {:induction false} PositiveTimes(m: int, p: int)
    requires m > 0 && p > 0
    ensures m * p >= m
  {
  }

  /** Reducing before adding changes no remainder. */
  lemma {:induction false} RemainderShift(x: int, m: int, d: int)
    requires m > 0
    ensures (x % m + d) % m == (x + d) % m
  {
    var q, z := x / m, x % m + d;
    Distribute(m, q, z / m);
    DivisionIs(x + d, m, q + z / m, z % m);
  }
}
