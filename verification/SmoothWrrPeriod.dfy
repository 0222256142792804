/** The period of the picks: exactly the total weight divided by the greatest common divisor of the weights. */
module SmoothWrrPeriod {
  import opened Arithmetic
  import opened Sums
  import opened SmoothWrr

  /** The picks repeat after P selections. */
  ghost predicate IsPeriod(w: seq<nat>, P: nat)
    requires |w| > 0
  {
    forall t: nat :: Pick(w, P + t) == Pick(w, t)
  }

  /** Every fair share of P selections is whole. */
  ghost predicate WholeShares(w: seq<nat>, P: nat)
    requires Total(w) > 0
  {
    forall i | 0 <= i < |w| :: (P * w[i]) % Total(w) == 0
  }

  lemma {:induction false} PicksAfterPeriod(w: seq<nat>, P: nat, t: nat, i: nat)
    requires |w| > 0 && IsPeriod(w, P)
    ensures Picks(w, P + t, i) == Picks(w, P, i) + Picks(w, t, i)
  {
    hide Pick;
    if t > 0 {
      PicksAfterPeriod(w, P, t - 1, i);
      assert P + t - 1 == P + (t - 1);
    }
  }

  /** m added up k times. */
  function Times(m: nat, k: nat): nat {
    if k == 0 then 0 else m + Times(m, k - 1)
  }

  lemma {:induction false} TimesIsProduct(m: nat, k: nat)
    ensures Times(m, k) == m * k
  {
    if k > 0 {
      TimesIsProduct(m, k - 1);
    }
  }

  lemma {:induction false} PicksOfPeriods(w: seq<nat>, P: nat, k: nat, i: nat)
    requires |w| > 0 && IsPeriod(w, P)
    ensures Picks(w, Times(P, k), i) == Times(Picks(w, P, i), k)
  {
    hide IsPeriod, Pick;
    if k > 0 {
      PicksOfPeriods(w, P, k - 1, i);
      PicksAfterPeriod(w, P, Times(P, k - 1), i);
    }
  }

  /** The picks repeat after P selections exactly when P selections give every backend a whole share. */
  lemma {:induction false} PeriodIffWholeShares(w: seq<nat>, P: nat)
    requires |w| > 0 && Total(w) > 0
    ensures IsPeriod(w, P) <==> WholeShares(w, P)
  {
    hide Pick, Picks, Credits, SumTo;
    if IsPeriod(w, P) {
      forall i | 0 <= i < |w| ensures (P * w[i]) % Total(w) == 0 {
        PicksOfPeriods(w, P, Total(w), i);
        TimesIsProduct(P, Total(w));
        TimesIsProduct(Picks(w, P, i), Total(w));
        ExactShares(w, P, i);
        MultipleHasNoRemainder(Total(w), Picks(w, P, i));
      }
    }
    if WholeShares(w, P) {
      ZeroCreditsIffSharesAreWhole(w, P);
      forall t: nat ensures Pick(w, P + t) == Pick(w, t) {
        RunRepeats(w, P, t);
      }
    }
  }

  lemma {:induction false} Expand(y: int, q: int, r: int, c: int)
    ensures (y * q + r) * c == q * (y * c) + r * c
  {
  }

  lemma {:induction false} Regroup(g: int, q: int, x: int)
    ensures g * (q * x) == (g * q) * x && g * (q * x) == q * (g * x)
  {
  }

  lemma {:induction false} ShareOfRemainder(y: int, q: int, r: int, c: int, U: int, a: int, b: int)
    requires (y * q + r) * c == U * a && y * c == U * b
    ensures r * c == U * (a - q * b)
  {
    Expand(y, q, r, c);
    Regroup(q, U, b);
    Distribute(U, a, q * b);
  }

  lemma {:induction false} Quotient(z: int, m: int) returns (q: int)
    requires m > 0 && z % m == 0
    ensures z == m * q
  {
    q := z / m;
  }

  lemma {:induction false} RemainderShares(x: nat, y: nat, c: nat, U: int)
    requires y > 0 && U > 0 && (x * c) % U == 0 && (y * c) % U == 0
    ensures (x % y * c) % U == 0
  {
    var q, r := x / y, x % y;
    assert x == y * q + r;
    var a := Quotient(x * c, U);
    var b := Quotient(y * c, U);
    ShareOfRemainder(y, q, r, c, U, a, b);
    MultipleHasNoRemainder(U, a - q * b);
  }

  lemma {:induction false} SumOfMultiples(d: int, a: int, q: int, b: int)
    ensures d * a * q + d * b == d * (a * q + b)
  {
  }

  lemma {:induction false} DividesSum(x: nat, y: nat, d: nat)
    requires d > 0 && y > 0 && y % d == 0 && (x % y) % d == 0
    ensures x % d == 0
  {
    var q, a, b := x / y, y / d, x % y / d;
    assert x == y * q + x % y && y == d * a && x % y == d * b;
    SumOfMultiples(d, a, q, b);
    MultipleHasNoRemainder(d, a * q + b);
  }

  /** A common divisor of x and y whose shares are whole wherever those of x and y are. */
  lemma {:induction false} CommonDivisor(x: nat, y: nat, u: seq<nat>, U: int) returns (d: nat)
    requires U > 0 && x > 0
    requires forall i | 0 <= i < |u| :: (x * u[i]) % U == 0 && (y * u[i]) % U == 0
    ensures d > 0 && x % d == 0 && y % d == 0
    ensures forall i | 0 <= i < |u| :: (d * u[i]) % U == 0
    decreases y
  {
    if y == 0 {
      d := x;
    } else {
      forall i | 0 <= i < |u| ensures (x % y * u[i]) % U == 0 {
        RemainderShares(x, y, u[i], U);
      }
      d := CommonDivisor(y, x % y, u, U);
      DividesSum(x, y, d);
    }
  }

  lemma {:induction false} CancelFactor(d: int, q: int, c: int, k: int)
    requires d > 0 && d * c == (d * q) * k
    ensures c == q * k
  {
    Regroup(d, q, k);
    ProductOrder(d, c, q * k);
  }

  /** If d * q divides d * c then q divides c. */
  lemma {:induction false} Cofactor(d: int, q: int, c: int)
    requires d > 0 && q > 0 && d * q > 0 && (d * c) % (d * q) == 0
    ensures c == q * (c / q)
  {
    var m, z := d * q, d * c;
    var k := z / m;
    assert z == m * k;
    CancelFactor(d, q, c, k);
    MultipleHasNoRemainder(q, k);
  }

  /** g divides every weight, and nothing larger does. */
  ghost predicate IsGreatestDivisor(u: seq<nat>, g: nat, w: seq<nat>) {
    && g > 0 && IsMultiple(u, g, w)
    && forall d: nat, v: seq<nat> | d > 0 && IsMultiple(v, d, w) :: d <= g
  }

  /** Shares of P selections are whole only if P is a multiple of the reduced total. */
  lemma {:induction false} WholeSharesDivide(u: seq<nat>, g: nat, w: seq<nat>, P: nat)
    requires IsGreatestDivisor(u, g, w) && Total(u) > 0 && WholeShares(u, P)
    ensures P % Total(u) == 0
  {
    var U := Total(u);
    forall i | 0 <= i < |u| ensures (U * u[i]) % U == 0 {
      MultipleHasNoRemainder(U, u[i]);
    }
    var d := CommonDivisor(U, P, u, U);
    var q := U / d;
    assert U == d * q;
    var v := seq(|u|, i requires 0 <= i < |u| => u[i] / q);
    forall i | 0 <= i < |u| ensures w[i] == (g * q) * v[i] {
      Cofactor(d, q, u[i]);
      Regroup(g, q, v[i]);
    }
    assert IsMultiple(v, g * q, w);
    ProductOrder(g, 1, q);
    assert g * 1 == g;
  }

  lemma {:induction false} ShareOfMultiple(U: int, k: int, c: int, P: int)
    requires U > 0 && P == U * k
    ensures (P * c) % U == 0
  {
    Regroup(U, k, c);
    MultipleHasNoRemainder(U, k * c);
  }

  lemma {:induction false} MultiplesHaveWholeShares(u: seq<nat>, P: nat)
    requires Total(u) > 0 && P % Total(u) == 0
    ensures WholeShares(u, P)
  {
    hide SumTo;
    var k := Quotient(P, Total(u));
    forall i | 0 <= i < |u| ensures (P * u[i]) % Total(u) == 0 {
      ShareOfMultiple(Total(u), k, u[i], P);
    }
  }

  /** The periods of the picks are exactly the multiples of W / gcd, so W / gcd is the least one. */
  lemma {:induction false} PeriodsAreMultiples(u: seq<nat>, g: nat, w: seq<nat>, P: nat)
    requires |u| > 0 && IsGreatestDivisor(u, g, w) && Total(u) > 0
    ensures g * Total(u) == Total(w)
    ensures IsPeriod(w, P) <==> P % Total(u) == 0
  {
    hide Pick, SumTo;
    SumToScaled(u, w, g, |u|);
    forall t: nat ensures Pick(w, t) == Pick(u, t) {
      ScaleInvariance(u, g, w, t);
    }
    assert IsPeriod(w, P) <==> IsPeriod(u, P);
    PeriodIffWholeShares(u, P);
    if WholeShares(u, P) {
      WholeSharesDivide(u, g, w, P);
    }
    if P % Total(u) == 0 {
      MultiplesHaveWholeShares(u, P);
    }
  }
}
