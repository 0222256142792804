/**
 Smooth Weighted Round Robin on unbounded integers: one selection as a function of the credits,
 runs from zero credits on a fixed slice, and the exact theorems about them. The bounded integers
 of the program are connected to this form in SmoothWrrRange and WeightedRoundRobin.
 */
module SmoothWrr {
  import opened Arithmetic
  import opened Sums

  function Zeros(n: nat): (z: seq<int>) {
    seq(n, _ => 0)
  }

  /** The sum of all weights of the slice. */
  function Total(w: seq<nat>): int {
    SumTo(w, |w|)
  }

  /** The credits once every backend of the slice has received its weight. */
  function Add(c: seq<int>, w: seq<nat>): (a: seq<int>)
    requires |w| <= |c|
  {
    seq(|c|, i requires 0 <= i < |c| => if i < |w| then c[i] + w[i] else c[i])
  }

  /** k is the first position among the first n that holds their maximum. */
  ghost predicate IsFirstMax(a: seq<int>, n: nat, k: nat)
    requires n <= |a|
  {
    && k < n
    && (forall i | 0 <= i < n :: a[i] <= a[k])
    && (forall i | 0 <= i < k :: a[i] < a[k])
  }

  function FirstMax(a: seq<int>, n: nat): (k: nat)
    requires 0 < n <= |a|
    ensures IsFirstMax(a, n, k)
  {
    if n == 1 then 0 else
    var k := FirstMax(a, n - 1);
    if a[n - 1] > a[k] then n - 1 else k
  }

  lemma {:induction false} FirstMaxIsUnique(a: seq<int>, n: nat, j: nat, k: nat)
    requires n <= |a| && IsFirstMax(a, n, j) && IsFirstMax(a, n, k)
    ensures j == k
  {
    assert a[j] <= a[k] && a[k] <= a[j];
  }

  /** The position one selection chooses. */
  function Choice(c: seq<int>, w: seq<nat>): (k: nat)
    requires 0 < |w| <= |c|
    ensures k < |w|
  {
    FirstMax(Add(c, w), |w|)
  }

  /** The credits after one selection. The slice may be shorter than the credit vector. */
  function Select(c: seq<int>, w: seq<nat>): (c': seq<int>)
    requires 0 < |w| <= |c|
    ensures |c'| == |c|
  {
    var a, k := Add(c, w), Choice(c, w);
    a[k := a[k] - Total(w)]
  }

  /** Whatever the slices and their order, a selection conserves the sum of the credits. */
  lemma {:induction false} SelectConservesSum(c: seq<int>, w: seq<nat>)
    requires 0 < |w| <= |c|
    ensures SumTo(Select(c, w), |c|) == SumTo(c, |c|)
  {
    AddRaisesSum(c, w, |c|);
    SumToLowered(Add(c, w), |c|, Choice(c, w), Total(w));
  }

  lemma {:induction false} AddRaisesSum(c: seq<int>, w: seq<nat>, n: nat)
    requires |w| <= n <= |c|
    ensures SumTo(Add(c, w), n) == SumTo(c, n) + Total(w)
  {
    if n == |w| {
      SumToPointwise(c, w, Add(c, w), n);
    } else {
      AddRaisesSum(c, w, n - 1);
    }
  }

  // ---------- Runs over slices that change ----------

  /** The credits after selections on the given slices, in order. */
  function SelectAll(c: seq<int>, slices: seq<seq<nat>>): (c': seq<int>)
    requires forall w | w in slices :: 0 < |w| <= |c|
    ensures |c'| == |c|
  {
    if |slices| == 0 then c
    else Select(SelectAll(c, slices[..|slices| - 1]), slices[|slices| - 1])
  }

  /** The healthy slice may shrink and grow between selections: the credits still sum to zero. */
  lemma {:induction false} CreditsAlwaysSumToZero(n: nat, slices: seq<seq<nat>>)
    requires forall w | w in slices :: 0 < |w| <= n
    ensures SumTo(SelectAll(Zeros(n), slices), n) == 0
  {
    if |slices| == 0 {
      SumToAtMost(Zeros(n), n, 0);
      SumToAtLeast(Zeros(n), n, 0);
    } else {
      var before := SelectAll(Zeros(n), slices[..|slices| - 1]);
      CreditsAlwaysSumToZero(n, slices[..|slices| - 1]);
      SelectConservesSum(before, slices[|slices| - 1]);
    }
  }

  // ---------- Runs on one stable slice ----------

  /** The credits after t selections from zero credits on the slice w. */
  function Credits(w: seq<nat>, t: nat): (c: seq<int>)
    requires |w| > 0
    ensures |c| == |w|
  {
    if t == 0 then Zeros(|w|) else Select(Credits(w, t - 1), w)
  }

  /** The position chosen by selection number t, counted from 0. */
  function Pick(w: seq<nat>, t: nat): (k: nat)
    requires |w| > 0
    ensures k < |w|
  {
    Choice(Credits(w, t), w)
  }

  /** How many of the first t selections chose position i. */
  function Picks(w: seq<nat>, t: nat, i: nat): (p: nat)
    requires |w| > 0
    ensures p <= t
  {
    if t == 0 then 0 else Picks(w, t - 1, i) + if Pick(w, t - 1) == i then 1 else 0
  }

  lemma {:induction false} CreditsUnfold(w: seq<nat>, t: nat)
    requires |w| > 0
    ensures Credits(w, 0) == Zeros(|w|)
    ensures Credits(w, t + 1) == Select(Credits(w, t), w)
  {
  }

  /** The ledger: a credit is what the position has earned minus what its picks have cost. */
  lemma {:induction false} Ledger(w: seq<nat>, t: nat, i: nat)
    requires i < |w|
    ensures Credits(w, t)[i] == t * w[i] - Total(w) * Picks(w, t, i)
  {
    hide Select, Choice, SumTo;
    if t > 0 {
      Ledger(w, t - 1, i);
      LedgerStep(t - 1, w[i], Total(w), Picks(w, t - 1, i), Pick(w, t - 1) == i, Credits(w, t - 1)[i]);
      CreditStep(w, t - 1, i);
    }
  }

  lemma {:induction false} CreditStep(w: seq<nat>, t: nat, i: nat)
    requires i < |w|
    ensures Credits(w, t + 1)[i] == Credits(w, t)[i] + w[i] - if Pick(w, t) == i then Total(w) else 0
    ensures Picks(w, t + 1, i) == if Pick(w, t) == i then Picks(w, t, i) + 1 else Picks(w, t, i)
  {
  }

  lemma {:induction false} CreditsSumToZero(w: seq<nat>, t: nat)
    requires |w| > 0
    ensures SumTo(Credits(w, t), |w|) == 0
  {
    if t == 0 {
      SumToAtMost(Zeros(|w|), |w|, 0);
      SumToAtLeast(Zeros(|w|), |w|, 0);
    } else {
      CreditsSumToZero(w, t - 1);
      SelectConservesSum(Credits(w, t - 1), w);
    }
  }

  /** The chosen credit is positive before the total weight is taken from it. */
  lemma {:induction false} WinnerIsPositive(w: seq<nat>, t: nat)
    requires |w| > 0 && Total(w) > 0
    ensures Add(Credits(w, t), w)[Pick(w, t)] > 0
  {
    var c := Credits(w, t);
    var a := Add(c, w);
    CreditsSumToZero(w, t);
    SumToPointwise(c, w, a, |w|);
    if a[Pick(w, t)] <= 0 {
      SumToAtMost(a, |w|, 0);
    }
  }

  /** No credit ever falls to minus the total weight. */
  lemma {:induction false} CreditAboveMinusTotal(w: seq<nat>, t: nat, i: nat)
    requires i < |w| && Total(w) > 0
    ensures Credits(w, t)[i] > -Total(w)
  {
    if t > 0 {
      CreditAboveMinusTotal(w, t - 1, i);
      WinnerIsPositive(w, t - 1);
    }
  }

  lemma {:induction false} PicksAddUp(w: seq<nat>, t: nat, counts: seq<int>)
    requires |w| > 0 && |counts| == |w|
    requires forall i | 0 <= i < |w| :: counts[i] == Picks(w, t, i)
    ensures SumTo(counts, |w|) == t
  {
    if t == 0 {
      SumToAtMost(counts, |w|, 0);
      SumToAtLeast(counts, |w|, 0);
    } else {
      var k := Pick(w, t - 1);
      var before := counts[k := counts[k] - 1];
      PicksAddUp(w, t - 1, before);
      SumToUpdate(counts, |w|, k, counts[k] - 1);
    }
  }

  /** The credits are all zero after t selections exactly when every fair share t * w_i / W is whole. */
  lemma {:induction false} ZeroCreditsIffSharesAreWhole(w: seq<nat>, t: nat)
    requires |w| > 0 && Total(w) > 0
    ensures Credits(w, t) == Zeros(|w|) <==> forall i | 0 <= i < |w| :: (t * w[i]) % Total(w) == 0
  {
    var c := Credits(w, t);
    if c == Zeros(|w|) {
      forall i | 0 <= i < |w| ensures (t * w[i]) % Total(w) == 0 {
        assert c[i] == 0;
        Ledger(w, t, i);
        MultipleHasNoRemainder(Total(w), Picks(w, t, i));
      }
    }
    if forall i | 0 <= i < |w| :: (t * w[i]) % Total(w) == 0 {
      forall i | 0 <= i < |w| ensures Zeros(|w|)[i] <= c[i] {
        WholeShareIsNotNegative(w, t, i);
      }
      CreditsSumToZero(w, t);
      CreditsSumToZero(w, 0);
      DominatedWithEqualSum(Zeros(|w|), c, |w|);
    }
  }

  lemma {:induction false} WholeShareIsNotNegative(w: seq<nat>, t: nat, i: nat)
    requires i < |w| && Total(w) > 0 && (t * w[i]) % Total(w) == 0
    ensures Credits(w, t)[i] >= 0
  {
    Ledger(w, t, i);
    CreditAboveMinusTotal(w, t, i);
    DivisibleAboveMinus(Total(w), t * w[i], Picks(w, t, i));
  }

  /** After k full cycles every position has been chosen exactly k * w_i times. */
  lemma {:induction false} ExactShares(w: seq<nat>, k: nat, i: nat)
    requires i < |w| && Total(w) > 0
    ensures Picks(w, k * Total(w), i) == k * w[i]
    ensures Credits(w, k * Total(w)) == Zeros(|w|)
  {
    var W := Total(w);
    var t := k * W;
    forall j | 0 <= j < |w| ensures (t * w[j]) % W == 0 && t * w[j] == W * (k * w[j]) {
      Reorder(k, W, w[j]);
      MultipleHasNoRemainder(W, k * w[j]);
    }
    ZeroCreditsIffSharesAreWhole(w, t);
    Ledger(w, t, i);
    assert Credits(w, t)[i] == 0;
    ProductOrder(W, k * w[i], Picks(w, t, i));
  }

  lemma {:induction false} OneCycle(w: seq<nat>)
    requires |w| > 0 && Total(w) > 0
    ensures Credits(w, Total(w)) == Zeros(|w|)
  {
    ExactShares(w, 1, 0);
    assert 1 * Total(w) == Total(w);
  }

  /** Once the credits are back at zero the run repeats itself. */
  lemma {:induction false} RunRepeats(w: seq<nat>, period: nat, t: nat)
    requires |w| > 0 && Credits(w, period) == Zeros(|w|)
    ensures Credits(w, period + t) == Credits(w, t)
    ensures Pick(w, period + t) == Pick(w, t)
  {
    hide Select, Choice;
    if t > 0 {
      RunRepeats(w, period, t - 1);
      assert period + t - 1 == period + (t - 1);
    }
  }

  // ---------- Scaling and zero weights ----------

  ghost predicate IsMultiple(u: seq<nat>, g: nat, w: seq<nat>) {
    |u| == |w| && forall i | 0 <= i < |u| :: w[i] == g * u[i]
  }

  /** Multiplying every weight by g > 0 scales the credits and leaves every choice as it was. */
  lemma {:induction false} ScaleInvariance(u: seq<nat>, g: nat, w: seq<nat>, t: nat)
    requires |u| > 0 && g > 0 && IsMultiple(u, g, w)
    ensures forall i | 0 <= i < |u| :: Credits(w, t)[i] == g * Credits(u, t)[i]
    ensures Pick(w, t) == Pick(u, t)
  {
    SumToScaled(u, w, g, |u|);
    if t > 0 {
      ScaleInvariance(u, g, w, t - 1);
      ScaledSelect(Credits(u, t - 1), u, g, Credits(w, t - 1), w);
    }
    ScaledSelect(Credits(u, t), u, g, Credits(w, t), w);
  }

  lemma {:induction false} ScaledSelect(c: seq<int>, u: seq<nat>, g: nat, d: seq<int>, w: seq<nat>)
    requires 0 < |u| == |c| == |d| && g > 0 && IsMultiple(u, g, w)
    requires forall i | 0 <= i < |c| :: d[i] == g * c[i]
    ensures Choice(d, w) == Choice(c, u)
    ensures forall i | 0 <= i < |c| :: Select(d, w)[i] == g * Select(c, u)[i]
  {
    var a, b := Add(c, u), Add(d, w);
    forall i | 0 <= i < |c| ensures b[i] == g * a[i] {
      Distribute(g, c[i], u[i]);
    }
    var k := Choice(c, u);
    forall i | 0 <= i < |c| ensures b[i] <= b[k] && (i < k ==> b[i] < b[k]) {
      ProductOrder(g, a[i], a[k]);
    }
    FirstMaxIsUnique(b, |c|, k, Choice(d, w));
    SumToScaled(u, w, g, |u|);
    Distribute(g, a[k], Total(u));
  }

  /** The choices repeat with period W / g whenever g divides every weight. */
  lemma {:induction false} ReducedPeriod(u: seq<nat>, g: nat, w: seq<nat>, t: nat)
    requires |u| > 0 && g > 0 && IsMultiple(u, g, w) && Total(u) > 0
    ensures g * Total(u) == Total(w)
    ensures Pick(w, Total(u) + t) == Pick(w, t)
  {
    hide Credits, Pick, SumTo;
    SumToScaled(u, w, g, |u|);
    OneCycle(u);
    RunRepeats(u, Total(u), t);
    ScaleInvariance(u, g, w, t);
    ScaleInvariance(u, g, w, Total(u) + t);
  }

  /** A zero weight is never chosen while some weight is positive. */
  lemma {:induction false} ZeroWeightNeverPicked(w: seq<nat>, t: nat)
    requires |w| > 0 && Total(w) > 0
    ensures w[Pick(w, t)] > 0
  {
    var k := Pick(w, t);
    if w[k] == 0 {
      Ledger(w, t + 1, k);
      CreditAboveMinusTotal(w, t + 1, k);
      CreditStep(w, t, k);
      PositiveTimes(Total(w), Picks(w, t + 1, k));
    }
  }

  /** When every weight is zero the first backend receives every request. */
  lemma {:induction false} AllZeroWeightsPickFirst(w: seq<nat>, t: nat)
    requires |w| > 0 && Total(w) == 0
    ensures Credits(w, t) == Zeros(|w|) && Pick(w, t) == 0
  {
    hide Credits, SumTo, FirstMax;
    CreditsUnfold(w, 0);
    ZeroWeightsSelect(w);
    if t > 0 {
      AllZeroWeightsPickFirst(w, t - 1);
      CreditsUnfold(w, t - 1);
    }
  }

  lemma {:induction false} ZeroWeightsSelect(w: seq<nat>)
    requires |w| > 0 && Total(w) == 0
    ensures Choice(Zeros(|w|), w) == 0 && Select(Zeros(|w|), w) == Zeros(|w|)
  {
    hide SumTo, FirstMax;
    forall i | 0 <= i < |w| ensures w[i] == 0 {
      EntryAtMostSum(w, |w|, i);
    }
    var a := Add(Zeros(|w|), w);
    assert a == Zeros(|w|);
    FirstMaxIsUnique(a, |w|, 0, Choice(Zeros(|w|), w));
  }

  // ---------- The documented example ----------

  const EXAMPLE: seq<nat> := [5, 1, 1]
  const EXAMPLE_CYCLE: seq<nat> := [0, 0, 1, 0, 2, 0, 0]

  lemma {:induction false} ExampleStep(c: seq<int>, c': seq<int>, k: nat)
    requires |c| == 3 && k < 3
    requires IsFirstMax([c[0] + 5, c[1] + 1, c[2] + 1], 3, k)
    requires c' == [c[0] + 5, c[1] + 1, c[2] + 1][k := [c[0] + 5, c[1] + 1, c[2] + 1][k] - 7]
    ensures Choice(c, EXAMPLE) == k && Select(c, EXAMPLE) == c'
  {
    var a := Add(c, EXAMPLE);
    assert a == [c[0] + 5, c[1] + 1, c[2] + 1];
    FirstMaxIsUnique(a, 3, k, Choice(c, EXAMPLE));
    assert SumTo(EXAMPLE, 1) == 5 && SumTo(EXAMPLE, 2) == 6;
  }

  lemma {:induction false} ExampleFirstCycle()
    ensures forall r | 0 <= r < 7 :: Pick(EXAMPLE, r) == EXAMPLE_CYCLE[r]
    ensures Credits(EXAMPLE, 7) == Zeros(3)
  {
    hide Choice, Select;
    ExampleStep([0, 0, 0], [-2, 1, 1], 0);
    assert Zeros(3) == [0, 0, 0];
    assert Credits(EXAMPLE, 1) == [-2, 1, 1];
    ExampleStep([-2, 1, 1], [-4, 2, 2], 0);
    assert Credits(EXAMPLE, 2) == [-4, 2, 2];
    ExampleStep([-4, 2, 2], [1, -4, 3], 1);
    assert Credits(EXAMPLE, 3) == [1, -4, 3];
    ExampleStep([1, -4, 3], [-1, -3, 4], 0);
    assert Credits(EXAMPLE, 4) == [-1, -3, 4];
    ExampleStep([-1, -3, 4], [4, -2, -2], 2);
    assert Credits(EXAMPLE, 5) == [4, -2, -2];
    ExampleStep([4, -2, -2], [2, -1, -1], 0);
    assert Credits(EXAMPLE, 6) == [2, -1, -1];
    ExampleStep([2, -1, -1], [0, 0, 0], 0);
  }

  /** Weights 5, 1, 1 repeat one cycle of seven for ever, never five times the first backend in a row. */
  lemma {:induction false} ExampleNeverBursts(t: nat)
    ensures Pick(EXAMPLE, t) == EXAMPLE_CYCLE[t % 7]
    ensures exists s | t <= s < t + 5 :: EXAMPLE_CYCLE[s % 7] != 0
    decreases t
  {
    hide Pick, Credits;
    ExampleFirstCycle();
    if t >= 7 {
      ExampleNeverBursts(t - 7);
      RunRepeats(EXAMPLE, 7, t - 7);
    }
    var r := t % 7;
    var s := if r <= 2 then t - r + 2 else if r <= 4 then t - r + 4 else t - r + 9;
    assert s % 7 == 2 || s % 7 == 4;
    assert t <= s < t + 5 && EXAMPLE_CYCLE[s % 7] != 0;
  }
}
