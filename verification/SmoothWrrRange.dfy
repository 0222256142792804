/**
 One selection in 64-bit arithmetic, and the proof that on a stable slice whose W * H(n) fits in 63 bits
 no run ever wraps, so that it performs exactly the unbounded selection of SmoothWrr. Up to 2^26 backends
 with 32-bit weights always fit.
 */
module SmoothWrrRange {
  import opened Sums
  import opened SmoothWrr
  import opened SmoothWrrBounds
  import opened Words

  /** The loop's running total after n backends. */
  function WrappedTotal(w: seq<nat>, n: nat): (t: int)
    requires n <= |w|
    ensures InI64(t)
  {
    if n == 0 then 0 else Wrap(WrappedTotal(w, n - 1) + w[n - 1])
  }

  function WrappedAdd(c: seq<int>, w: seq<nat>): (a: seq<int>)
    requires |w| <= |c|
    ensures |a| == |c|
  {
    seq(|c|, i requires 0 <= i < |c| => if i < |w| then Wrap(c[i] + w[i]) else c[i])
  }

  function WrappedChoice(c: seq<int>, w: seq<nat>): (k: nat)
    requires 0 < |w| <= |c|
    ensures k < |w|
  {
    FirstMax(WrappedAdd(c, w), |w|)
  }

  function WrappedSelect(c: seq<int>, w: seq<nat>): (c': seq<int>)
    requires 0 < |w| <= |c|
    ensures |c'| == |c|
  {
    var a, k := WrappedAdd(c, w), WrappedChoice(c, w);
    a[k := Wrap(a[k] - WrappedTotal(w, |w|))]
  }

  /** The running total is the true sum, wrapped once. */
  lemma {:induction false} WrappedTotalIsWrappedSum(w: seq<nat>, n: nat)
    requires n <= |w|
    ensures WrappedTotal(w, n) == Wrap(SumTo(w, n))
  {
    if n > 0 {
      WrappedTotalIsWrappedSum(w, n - 1);
      WrapAbsorbs(SumTo(w, n - 1), w[n - 1]);
    }
  }

  /** Wrapping the entries does not change the wrapped sum. */
  lemma {:induction false} WrappedSum(a: seq<int>, d: seq<int>, n: nat)
    requires n <= |a| && n <= |d| && forall i | 0 <= i < n :: a[i] == Wrap(d[i])
    ensures Wrap(SumTo(a, n)) == Wrap(SumTo(d, n))
  {
    if n > 0 {
      WrappedSum(a, d, n - 1);
      WrapAbsorbs(SumTo(a, n - 1), a[n - 1]);
      WrapAbsorbs(SumTo(d, n - 1), d[n - 1]);
      assert Wrap(a[n - 1]) == a[n - 1];
    }
  }

  /** Whatever the credits, the weights and the slice, a 64-bit selection conserves the sum modulo 2^64. */
  lemma {:induction false} WrappedSelectConserves(c: seq<int>, w: seq<nat>)
    requires 0 < |w| <= |c| && forall i | 0 <= i < |c| :: InI64(c[i])
    ensures Wrap(SumTo(WrappedSelect(c, w), |c|)) == Wrap(SumTo(c, |c|))
  {
    hide FirstMax, SumTo, Wrap;
    var a, k := Add(c, w), WrappedChoice(c, w);
    var lowered := a[k := a[k] - Total(w)];
    AddRaisesSum(c, w, |c|);
    SumToLowered(a, |c|, k, Total(w));
    WrappedTotalIsWrappedSum(w, |w|);
    WrapAbsorbs(a[k], Total(w));
    WrappedSum(WrappedSelect(c, w), lowered, |c|);
  }

  /** A slice whose runs are proved to stay in range: the total weight times H(n) is below 2^63. */
  ghost predicate Supported(w: seq<nat>) {
    |w| > 0 && Total(w) as real * Harmonic(|w|) <= I64_MAX as real
  }

  /** Every slice of at most 2^26 backends with 32-bit weights is supported. */
  lemma {:induction false} U32WeightsAreSupported(w: seq<nat>)
    requires 0 < |w| <= TWO_26 && AreU32(w)
    ensures Supported(w)
  {
    hide SumTo, Harmonic;
    SumToAtLeast(w, |w|, 0);
    SumToAtMost(w, |w|, TWO_32);
    HarmonicAtMost27(|w|);
    ProductAtMost(Total(w) as real, Harmonic(|w|), TWO_58 as real, 27.0);
  }

  lemma {:induction false} ProductAtMost(x: real, y: real, x': real, y': real)
    requires 0.0 <= x <= x' && 0.0 <= y'
    requires y <= y'
    ensures x * y <= x' * y'
  {
    assert x * y <= x * y';
  }

  lemma {:induction false} HarmonicAtMost27(n: nat)
    requires n <= TWO_26
    ensures Harmonic(n) <= 27.0
  {
    hide Harmonic, PowerOfTwo;
    WordSizes();
    HarmonicOfPowerOfTwo(26);
    HarmonicMonotone(n, TWO_26);
  }

  lemma {:induction false} TotalInRange(w: seq<nat>)
    requires Supported(w)
    ensures 0 <= Total(w) <= I64_MAX
  {
    hide SumTo;
    SumToAtLeast(w, |w|, 0);
    assert Harmonic(1) == Harmonic(0) + 1.0 / 1.0;
    HarmonicMonotone(1, |w|);
    ProductAtMost(Total(w) as real, 1.0, Total(w) as real, Harmonic(|w|));
  }

  /** A credit leaves room for one more round of weights above it and for one total below. */
  lemma {:induction false} CreditsInRange(w: seq<nat>, t: nat, i: nat)
    requires Supported(w) && i < |w|
    ensures -Total(w) <= Credits(w, t)[i] <= I64_MAX - Total(w)
  {
    hide Credits, Allowance, SumTo, Harmonic;
    TotalInRange(w);
    CreditBound(w, t, i);
    AllowanceOfOne(Total(w), |w|);
    if Total(w) == 0 {
      AllZeroWeightsPickFirst(w, t);
    } else {
      CreditAboveMinusTotal(w, t, i);
    }
  }

  /** In one selection no credit, raised credit, lowered credit or running total leaves 64 bits. */
  ghost predicate StaysInRange(c: seq<int>, w: seq<nat>)
    requires 0 < |w| <= |c|
  {
    && (forall i | 0 <= i < |c| :: InI64(c[i]) && I64_MIN < Add(c, w)[i] <= I64_MAX && InI64(Select(c, w)[i]))
    && (forall m | 0 <= m <= |w| :: InI64(SumTo(w, m)) && WrappedTotal(w, m) == SumTo(w, m))
  }

  /** A selection that stays in range is the unbounded one. */
  lemma {:induction false} InRangeIsExact(c: seq<int>, w: seq<nat>)
    requires 0 < |w| <= |c| && StaysInRange(c, w)
    ensures WrappedChoice(c, w) == Choice(c, w) && WrappedSelect(c, w) == Select(c, w)
  {
    hide SumTo, FirstMax;
    forall i | 0 <= i < |c| ensures WrappedAdd(c, w)[i] == Add(c, w)[i] {
      assert InI64(Add(c, w)[i]);
    }
    assert WrappedAdd(c, w) == Add(c, w);
    assert WrappedTotal(w, |w|) == Total(w);
    assert InI64(Select(c, w)[Choice(c, w)]);
  }

  lemma {:induction false} TotalsStayInRange(w: seq<nat>)
    requires Total(w) <= I64_MAX
    ensures forall m | 0 <= m <= |w| :: InI64(SumTo(w, m)) && WrappedTotal(w, m) == SumTo(w, m)
  {
    hide SumTo, WrappedTotal;
    forall m | 0 <= m <= |w| ensures InI64(SumTo(w, m)) && WrappedTotal(w, m) == SumTo(w, m) {
      PrefixAtMostTotal(w, m);
      WrappedTotalIsWrappedSum(w, m);
    }
  }

  lemma {:induction false} RaisedInRange(w: seq<nat>, t: nat, i: nat)
    requires Supported(w) && i < |w|
    ensures InI64(Credits(w, t)[i]) && I64_MIN < Add(Credits(w, t), w)[i] <= I64_MAX
  {
    hide Credits, SumTo, Harmonic;
    TotalInRange(w);
    CreditsInRange(w, t, i);
    EntryAtMostSum(w, |w|, i);
  }

  /** No selection of any run on a supported slice leaves 64 bits. */
  lemma {:induction false} NothingWraps(w: seq<nat>, t: nat)
    requires Supported(w)
    ensures StaysInRange(Credits(w, t), w)
  {
    assert |w| > 0;
    hide Credits, Select, Supported, SumTo;
    TotalInRange(w);
    CreditsUnfold(w, t);
    TotalsStayInRange(w);
    hide WrappedTotal, Add;
    forall i | 0 <= i < |w|
      ensures InI64(Credits(w, t)[i]) && I64_MIN < Add(Credits(w, t), w)[i] <= I64_MAX
      ensures InI64(Select(Credits(w, t), w)[i])
    {
      RaisedInRange(w, t, i);
      RaisedInRange(w, t + 1, i);
    }
  }

  lemma {:induction false} PrefixAtMostTotal(w: seq<nat>, n: nat)
    requires n <= |w|
    ensures 0 <= SumTo(w, n) <= Total(w)
    decreases |w| - n
  {
    SumToAtLeast(w, n, 0);
    if n < |w| {
      PrefixAtMostTotal(w, n + 1);
    }
  }

  /** So the 64-bit selection is the unbounded one in every run. */
  lemma {:induction false} BoundedRunIsExact(w: seq<nat>, t: nat)
    requires Supported(w)
    ensures WrappedChoice(Credits(w, t), w) == Pick(w, t)
    ensures WrappedSelect(Credits(w, t), w) == Credits(w, t + 1)
  {
    hide Credits, StaysInRange, WrappedChoice, WrappedSelect, Choice, Select;
    NothingWraps(w, t);
    InRangeIsExact(Credits(w, t), w);
    CreditsUnfold(w, t);
  }

  /** The credits after t 64-bit selections on one slice, starting from zero. */
  function WrappedCredits(w: seq<nat>, t: nat): (c: seq<int>)
    requires |w| > 0
    ensures |c| == |w|
  {
    if t == 0 then Zeros(|w|) else WrappedSelect(WrappedCredits(w, t - 1), w)
  }

  lemma {:induction false} BoundedRunsAgree(w: seq<nat>, t: nat)
    requires Supported(w)
    ensures WrappedCredits(w, t) == Credits(w, t)
  {
    hide WrappedSelect, Select;
    if t > 0 {
      BoundedRunsAgree(w, t - 1);
      BoundedRunIsExact(w, t - 1);
    }
  }
}
