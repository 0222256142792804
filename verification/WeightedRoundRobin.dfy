/** The Smooth Weighted Round Robin strategy object: credits sized on first use and updated in place. */
module WeightedRoundRobins {
  import opened Backends
  import opened Sums
  import opened SmoothWrr
  import opened SmoothWrrRange
  import opened SmoothWrrSwitching
  import opened Words

  /** No backend, the chosen position, or the index panic of a slice longer than the first one seen. */
  datatype Selection = NoBackend | Chosen(index: nat) | Panicked

  /** What one call does to a credit vector. */
  ghost function Outcome(c: seq<int>, w: seq<nat>): (Selection, seq<int>)
    requires |w| > 0
  {
    if |w| <= |c| then (Chosen(WrappedChoice(c, w)), WrappedSelect(c, w))
    else (Panicked, WrappedAdd(c, w[..|c|]))
  }

  /** The same for a strategy whose credits may not be sized yet; then they are the empty vector. */
  ghost function Called(c: seq<int>, w: seq<nat>): (Selection, seq<int>) {
    if |w| == 0 then (NoBackend, c) else Outcome(if c == [] then Zeros(|w|) else c, w)
  }

  /** The loop's best position and credit after the first n credits of a. */
  ghost predicate Scanned(a: seq<int>, n: nat, k: nat, best: int)
    requires n <= |a|
  {
    if n == 0 then k == 0 && best == I64_MIN else IsFirstMax(a, n, k) && best == a[k]
  }

  /** The sentinel is harmless: even a credit equal to it is handled as a first maximum. */
  lemma {:induction false} ScanStep(a: seq<int>, n: nat, k: nat, best: int, x: int)
    requires n < |a| && Scanned(a, n, k, best) && InI64(x)
    ensures Scanned(a[n := x], n + 1, if x > best then n else k, if x > best then x else best)
  {
  }

  lemma {:induction false} AddNothing(c: seq<int>, w: seq<nat>)
    ensures WrappedAdd(c, w[..0]) == c && WrappedTotal(w, 0) == 0
  {
  }

  lemma {:induction false} AddStep(c: seq<int>, w: seq<nat>, n: nat)
    requires n < |w| && n < |c|
    ensures WrappedAdd(c, w[..n + 1]) == WrappedAdd(c, w[..n])[n := Wrap(c[n] + w[n])]
    ensures WrappedAdd(c, w[..n])[n] == c[n]
    ensures WrappedTotal(w, n + 1) == Wrap(WrappedTotal(w, n) + w[n])
  {
  }

  class WeightedRoundRobin {
    var credits: array?<int>

    constructor ()
      ensures credits == null
    {
      credits := null;
    }

    ghost predicate Valid()
      reads this, credits
    {
      credits != null ==> credits.Length > 0 && forall i | 0 <= i < credits.Length :: InI64(credits[i])
    }

    /** The credit vector so far, empty before the first call that finds a backend. */
    ghost function Stored(): (c: seq<int>)
      reads this, credits
    {
      if credits == null then [] else credits[..]
    }

    /** The once-only sizing of the credits by the first slice seen. */
    method GetOrInit(n: nat) returns (c: array<int>)
      requires Valid() && n > 0
      modifies this`credits
      ensures Valid() && credits == c && Stored() == c[..] == if old(Stored()) == [] then Zeros(n) else old(Stored())
      ensures if old(credits) == null then fresh(c) else c == old(credits)
    {
      if credits == null {
        credits := new int[n](_ => 0);
      }
      return credits;
    }

    method Select(backends: seq<Backend>) returns (s: Selection)
      requires Valid() && AreU32(Weights(backends))
      modifies this`credits, credits
      ensures Valid()
      ensures credits == old(credits) || (old(credits) == null && credits != null && fresh(credits))
      ensures (s, Stored()) == Called(old(Stored()), Weights(backends))
    {
      hide FirstMax, IsFirstMax, Wrap, WrappedAdd, WrappedTotal, Zeros;
      if |backends| == 0 {
        return NoBackend;
      }
      var credits := GetOrInit(|backends|);
      ghost var start := credits[..];
      ghost var w := Weights(backends);
      assert start == if old(Stored()) == [] then Zeros(|w|) else old(Stored());
      AddNothing(start, w);

      var totalWeight := 0;
      var bestIndex := 0;
      var bestCredit := I64_MIN;
      for i := 0 to |backends|
        modifies credits
        invariant i <= credits.Length
        invariant totalWeight == WrappedTotal(w, i)
        invariant credits[..] == WrappedAdd(start, w[..i])
        invariant Scanned(credits[..], i, bestIndex, bestCredit)
        invariant forall j | 0 <= j < credits.Length :: InI64(credits[j])
      {
        totalWeight := Wrap(totalWeight + backends[i].weight);
        if i >= credits.Length {
          assert i == |start|;
          return Panicked;
        }
        var raised := Wrap(credits[i] + backends[i].weight);
        AddStep(start, w, i);
        ScanStep(credits[..], i, bestIndex, bestCredit, raised);
        credits[i] := raised;
        if credits[i] > bestCredit {
          bestCredit := credits[i];
          bestIndex := i;
        }
      }
      assert w[..|backends|] == w;
      FirstMaxIsUnique(credits[..], |backends|, bestIndex, WrappedChoice(start, w));
      credits[bestIndex] := Wrap(credits[bestIndex] - totalWeight);
      return Chosen(bestIndex);
    }
  }

  /** A call that panics has given every known position its weight, and taken nothing back. */
  lemma {:induction false} PanicAddsEverywhere(c: seq<int>, w: seq<nat>)
    requires 0 < |c| < |w|
    ensures Outcome(c, w).0 == Panicked && |Outcome(c, w).1| == |c|
    ensures forall i | 0 <= i < |c| :: Outcome(c, w).1[i] == Wrap(c[i] + w[i])
  {
  }

  /** The panic is the only way a call breaks conservation: the weights of the known positions are kept. */
  lemma {:induction false} PanicLeaksWeight(c: seq<int>, w: seq<nat>)
    requires 0 < |c| < |w|
    requires forall i | 0 <= i < |c| :: InI64(c[i] + w[i])
    ensures Outcome(c, w).0 == Panicked
    ensures SumTo(Outcome(c, w).1, |c|) == SumTo(c, |c|) + SumTo(w, |c|)
  {
    var prefix := w[..|c|];
    assert WrappedAdd(c, prefix) == Add(c, prefix);
    AddRaisesSum(c, prefix, |c|);
    SumToSame(prefix, w, |c|);
  }

  /** On a stable supported slice the object runs the unbounded schedule: call number t picks Pick(w, t). */
  lemma {:induction false} OutcomeOnStableSlice(w: seq<nat>, t: nat)
    requires Supported(w)
    ensures Outcome(Credits(w, t), w) == (Chosen(Pick(w, t)), Credits(w, t + 1))
  {
    BoundedRunIsExact(w, t);
  }

  /** A fresh strategy asked repeatedly for the same slice: counts[i] is how often it chose position i. */
  method Distribution(backends: seq<Backend>, rounds: nat) returns (counts: seq<nat>)
    requires AreU32(Weights(backends)) && Supported(Weights(backends))
    ensures |counts| == |backends|
    ensures forall i | 0 <= i < |counts| :: counts[i] == Picks(Weights(backends), rounds, i)
    ensures SumTo(counts, |counts|) == rounds
    ensures var W := Total(Weights(backends));
            W > 0 && rounds % W == 0 ==> forall i | 0 <= i < |counts| :: counts[i] == rounds / W * backends[i].weight
  {
    hide Credits, Pick, Picks, SumTo, Outcome;
    var strategy := new WeightedRoundRobin();
    counts := seq(|backends|, _ => 0);
    ghost var w := Weights(backends);
    BeforeAnyPick(w);
    for t := 0 to rounds
      invariant strategy.Valid() && fresh(strategy)
      invariant strategy.credits != null ==> fresh(strategy.credits)
      invariant strategy.Stored() == if t == 0 then [] else Credits(w, t)
      invariant |counts| == |w| && forall i | 0 <= i < |w| :: counts[i] == Picks(w, t, i)
    {
      OutcomeOnStableSlice(w, t);
      forall i | 0 <= i < |w| ensures Picks(w, t + 1, i) == Picks(w, t, i) + if Pick(w, t) == i then 1 else 0 {
        CreditStep(w, t, i);
      }
      var s := strategy.Select(backends);
      counts := counts[s.index := counts[s.index] + 1];
    }
    PicksAddUp(w, rounds, counts);
    if Total(w) > 0 && rounds % Total(w) == 0 {
      CycleCounts(w, rounds);
    }
  }

  // ---------- Sequences of calls ----------

  /** The credits a fresh strategy holds after calls on the given slices. */
  ghost function CreditsAfter(slices: seq<seq<nat>>): seq<int> {
    if |slices| == 0 then [] else Called(CreditsAfter(slices[..|slices| - 1]), slices[|slices| - 1]).1
  }

  ghost predicate NeverPanics(slices: seq<seq<nat>>) {
    |slices| > 0 ==>
      && NeverPanics(slices[..|slices| - 1])
      && Called(CreditsAfter(slices[..|slices| - 1]), slices[|slices| - 1]).0 != Panicked
  }

  /** The length of the first slice that is not empty. */
  ghost function FirstLength(slices: seq<seq<nat>>): nat {
    if |slices| == 0 then 0
    else if FirstLength(slices[..|slices| - 1]) > 0 then FirstLength(slices[..|slices| - 1])
    else |slices[|slices| - 1]|
  }

  lemma {:induction false} SizedByFirst(slices: seq<seq<nat>>)
    ensures |CreditsAfter(slices)| == FirstLength(slices)
  {
    hide WrappedChoice, WrappedSelect, WrappedAdd;
    if |slices| > 0 {
      SizedByFirst(slices[..|slices| - 1]);
      OutcomeKeepsSize(CreditsAfter(slices[..|slices| - 1]), slices[|slices| - 1]);
    }
  }

  lemma {:induction false} OutcomeKeepsSize(c: seq<int>, w: seq<nat>)
    ensures |Called(c, w).1| == if c == [] then |w| else |c|
    ensures Called(c, w).0 == Panicked <==> 0 < |c| < |w|
  {
  }

  /** No call of a sequence panics exactly when no slice is longer than the first one that is not empty. */
  lemma {:induction false} NeverPanicsIff(slices: seq<seq<nat>>)
    ensures NeverPanics(slices) <==> forall j | 0 <= j < |slices| :: |slices[j]| <= FirstLength(slices)
  {
    hide Called, CreditsAfter;
    if |slices| > 0 {
      var before, last := slices[..|slices| - 1], slices[|slices| - 1];
      NeverPanicsIff(before);
      SizedByFirst(before);
      OutcomeKeepsSize(CreditsAfter(before), last);
      assert forall j | 0 <= j < |before| :: before[j] == slices[j];
      if FirstLength(before) == 0 {
        NoneLonger(before);
      }
    }
  }

  /** Before the first slice that is not empty all slices are empty. */
  lemma {:induction false} NoneLonger(slices: seq<seq<nat>>)
    requires FirstLength(slices) == 0
    ensures forall j | 0 <= j < |slices| :: |slices[j]| == 0
  {
    if |slices| > 0 {
      NoneLonger(slices[..|slices| - 1]);
    }
  }

  /** The slices that have a backend. */
  function Staffed(slices: seq<seq<nat>>): (r: seq<seq<nat>>)
    ensures forall w | w in r :: |w| > 0
  {
    if |slices| == 0 then [] else
    Staffed(slices[..|slices| - 1]) + if |slices[|slices| - 1]| > 0 then [slices[|slices| - 1]] else []
  }

  /** Calls that find no backend leave no trace. */
  lemma {:induction false} OnlyStaffedCallsCount(slices: seq<seq<nat>>)
    ensures CreditsAfter(slices) == CreditsAfter(Staffed(slices))
  {
    hide Outcome;
    if |slices| > 0 {
      var before := Staffed(slices[..|slices| - 1]);
      OnlyStaffedCallsCount(slices[..|slices| - 1]);
      if |slices[|slices| - 1]| > 0 {
        assert Staffed(slices)[..|before|] == before;
      } else {
        assert Staffed(slices) == before;
      }
    }
  }

  /**
   Through any changes of a healthy slice that never outgrows the first one, even through moments without a healthy
   backend, call after call of the object picks and leaves what the unbounded schedule does on the slices that have one.
   */
  lemma {:induction false} CallsOnChangingSlices(slices: seq<seq<nat>>, w: seq<nat>, W: nat)
    requires |w| > 0
    requires var n := |(Staffed(slices) + [w])[0]|; Admitted(Staffed(slices) + [w], n, W) && Roomy(n, W)
    ensures var start := SelectAll(Zeros(|(Staffed(slices) + [w])[0]|), Staffed(slices));
            Called(CreditsAfter(slices), w) == (Chosen(Choice(start, w)), Select(start, w))
    ensures Called(CreditsAfter(slices), []) == (NoBackend, CreditsAfter(slices))
  {
    hide Choice, Select, Roomy, Staffed, Outcome, Admitted, CreditsAfter, SelectAll;
    AdmittedParts(Staffed(slices), w, |(Staffed(slices) + [w])[0]|, W);
    OnlyStaffedCallsCount(slices);
    StaffedCalls(Staffed(slices), w, W);
  }

  lemma {:induction false} StaffedCalls(slices: seq<seq<nat>>, w: seq<nat>, W: nat)
    requires var n := |(slices + [w])[0]|; Admitted(slices + [w], n, W) && Roomy(n, W)
    ensures var start := SelectAll(Zeros(|(slices + [w])[0]|), slices);
            Called(CreditsAfter(slices), w) == (Chosen(Choice(start, w)), Select(start, w))
    decreases |slices|
  {
    hide Choice, Select, WrappedChoice, WrappedSelect, WrappedAdd, Roomy;
    var n := |(slices + [w])[0]|;
    AdmittedParts(slices, w, n, W);
    SwitchingIsExact(n, W, slices, w);
    if |slices| > 0 {
      var before, last := slices[..|slices| - 1], slices[|slices| - 1];
      assert slices == before + [last];
      StaffedCalls(before, last, W);
    }
  }

  lemma {:induction false} AdmittedParts(slices: seq<seq<nat>>, w: seq<nat>, n: nat, W: nat)
    requires Admitted(slices + [w], n, W)
    ensures Admitted(slices, n, W) && 0 < |w| <= n && forall v | v in slices :: 0 < |v| <= n
  {
    assert w in slices + [w] && forall v | v in slices :: v in slices + [w];
  }

  lemma {:induction false} BeforeAnyPick(w: seq<nat>)
    requires |w| > 0
    ensures Credits(w, 0) == Zeros(|w|) && forall i :: Picks(w, 0, i) == 0
  {
  }

  lemma {:induction false} CycleCounts(w: seq<nat>, rounds: nat)
    requires |w| > 0 && Total(w) > 0 && rounds % Total(w) == 0
    ensures forall i | 0 <= i < |w| :: Picks(w, rounds, i) == rounds / Total(w) * w[i]
  {
    hide Credits, Picks, SumTo;
    var k := rounds / Total(w);
    assert rounds == k * Total(w);
    forall i | 0 <= i < |w| ensures Picks(w, rounds, i) == k * w[i] {
      ExactShares(w, k, i);
    }
  }
}
