/**
 How far a run of Smooth Weighted Round Robin can stray from exact proportion. Every set of k
 positions holds at most k * W * (H(n) - H(k)) credit, where H is the harmonic sum; window fairness,
 freedom from starvation and the 64-bit range of the credits follow.
 */
module SmoothWrrBounds {
  import opened Sums
  import opened SmoothWrr
  import opened Words

  /** 1 + 1/2 + ... + 1/n. */
  ghost function Harmonic(n: nat): (h: real) {
    if n == 0 then 0.0 else Harmonic(n - 1) + 1.0 / n as real
  }

  /** S is a set of positions of a slice of n backends. */
  ghost predicate Within(S: set<nat>, n: nat) {
    forall i | i in S :: i < n
  }

  /** What k of n positions may hold together when the weights sum to W: k * W * (1/(k+1) + ... + 1/n). */
  ghost function Allowance(W: int, n: nat, k: nat): real {
    k as real * W as real * (Harmonic(n) - Harmonic(k))
  }

  // ---------- The harmonic subset bound ----------

  /** After any number of selections no nonempty set of positions holds more than its allowance. */
  lemma {:induction false} HarmonicSubsetBound(w: seq<nat>, t: nat, S: set<nat>)
    requires |w| > 0 && S != {} && Within(S, |w|)
    ensures SumOver(Credits(w, t), |w|, S) as real <= Allowance(Total(w), |w|, |S|)
    decreases t
  {
    hide Allowance, Harmonic, Select, Choice, SumOver, SumTo;
    var n := |w|;
    SubsetSize(S, n);
    if t == 0 {
      ZerosSumOver(n, n, S);
      TotalNotNegative(w);
      AllowanceNotNegative(Total(w), n, |S|);
    } else {
      var c := Credits(w, t - 1);
      if Choice(c, w) in S {
        HarmonicSubsetBound(w, t - 1, S);
        WinnerInside(c, w, S);
      } else {
        var T := S + {Choice(c, w)};
        HarmonicSubsetBound(w, t - 1, T);
        SubsetSize(T, n);
        WinnerOutside(c, w, S);
        Averaging(SumOver(Add(c, w), n, S), Add(c, w)[Choice(c, w)], Total(w), n, |S|);
      }
    }
  }

  /** When the winner lies in S, the credit of S does not grow. */
  lemma {:induction false} WinnerInside(c: seq<int>, w: seq<nat>, S: set<nat>)
    requires 0 < |w| == |c| && Choice(c, w) in S
    ensures SumOver(Select(c, w), |w|, S) <= SumOver(c, |w|, S)
  {
    var n, a, k := |w|, Add(c, w), Choice(c, w);
    SumOverPointwise(c, w, a, n, S);
    SumOverAtMostSum(w, n, S);
    var v := a[k] - Total(w);
    SumOverUpdate(a, n, S, k, v);
  }

  /** When it does not, S earns its weights, yet holds at most |S| times the winner's credit. */
  lemma {:induction false} WinnerOutside(c: seq<int>, w: seq<nat>, S: set<nat>)
    requires 0 < |w| == |c| && Within(S, |w|) && Choice(c, w) !in S
    ensures SumOver(Select(c, w), |w|, S) == SumOver(Add(c, w), |w|, S)
    ensures SumOver(Add(c, w), |w|, S) <= |S| * Add(c, w)[Choice(c, w)]
    ensures SumOver(Add(c, w), |w|, S) + Add(c, w)[Choice(c, w)]
         <= SumOver(c, |w|, S + {Choice(c, w)}) + Total(w)
  {
    var n, a, k := |w|, Add(c, w), Choice(c, w);
    var T := S + {k};
    var v := a[k] - Total(w);
    SumOverUpdate(a, n, S, k, v);
    SumOverAtMost(a, n, S, a[k]);
    SumOverInsert(a, n, S, k);
    SumOverPointwise(c, w, a, n, T);
    SumOverAtMostSum(w, n, T);
  }

  /** The average of S is at most the average of S plus the winner, so the bound for k + 1 applies. */
  lemma {:induction false} Averaging(s: int, top: int, W: int, n: nat, k: nat)
    requires k >= 1
    requires s <= k * top
    requires (s + top) as real <= Allowance(W, n, k + 1) + W as real
    ensures s as real <= Allowance(W, n, k)
  {
    var K, d := k as real, Harmonic(n) - Harmonic(k);
    var room := W as real * d;
    AllowanceSplit(W as real, K + 1.0, d);
    assert Allowance(W, n, k + 1) + W as real == (K + 1.0) * room;
    assert (k * top) as real == K * top as real;
    ScaleDown(s as real, top as real, K, room);
    assert K * room == K * W as real * d;
  }

  lemma {:induction false} AllowanceSplit(W: real, m: real, d: real)
    requires m > 0.0
    ensures m * W * (d - 1.0 / m) + W == m * (W * d)
  {
    var x := 1.0 / m;
    assert m * x == 1.0;
    assert m * W * (d - x) == m * (W * d) - W * (m * x);
  }

  lemma {:induction false} ScaleDown(s: real, top: real, k: real, room: real)
    requires k >= 1.0 && s <= k * top && s + top <= (k + 1.0) * room
    ensures s <= k * room
  {
    assert k * (s + top) <= k * ((k + 1.0) * room);
    assert (k + 1.0) * s <= (k + 1.0) * (k * room);
  }

  lemma {:induction false} AllowanceNotNegative(W: int, n: nat, k: nat)
    requires W >= 0 && k <= n
    ensures Allowance(W, n, k) >= 0.0
  {
    HarmonicMonotone(k, n);
    var x := k as real * W as real;
    assert x >= 0.0;
  }

  lemma {:induction false} TotalNotNegative(w: seq<nat>)
    ensures Total(w) >= 0
  {
    SumToAtLeast(w, |w|, 0);
  }

  lemma {:induction false} ZerosSumOver(n: nat, m: nat, S: set<nat>)
    requires m <= n
    ensures SumOver(Zeros(n), m, S) == 0
  {
    if m > 0 {
      ZerosSumOver(n, m - 1, S);
    }
  }

  lemma {:induction false} SubsetSize(S: set<nat>, n: nat)
    requires Within(S, n)
    ensures |S| <= n
  {
    if n == 0 {
      assert S == {};
    } else {
      SubsetSize(S - {n - 1}, n - 1);
      assert |S| <= |S - {n - 1}| + 1;
    }
  }

  // ---------- Harmonic sums ----------

  lemma {:induction false} HarmonicMonotone(m: nat, n: nat)
    requires m <= n
    ensures Harmonic(m) <= Harmonic(n)
  {
    if m < n {
      HarmonicMonotone(m, n - 1);
    }
  }

  /** Each of j further terms after the m-th is at most 1/m. */
  lemma {:induction false} HarmonicGrowth(m: nat, j: nat)
    requires m > 0
    ensures Harmonic(m + j) <= Harmonic(m) + j as real / m as real
  {
    if j > 0 {
      HarmonicGrowth(m, j - 1);
      var x, y := m as real, (m + j) as real;
      assert 1.0 / y <= 1.0 / x;
      assert j as real / x == (j - 1) as real / x + 1.0 / x;
    }
  }

  /** Doubling n adds at most one to the harmonic sum. */
  lemma {:induction false} HarmonicOfPowerOfTwo(k: nat)
    ensures Harmonic(PowerOfTwo(k)) <= (k + 1) as real
  {
    if k == 0 {
      assert Harmonic(1) == Harmonic(0) + 1.0 / 1.0;
    } else {
      var m := PowerOfTwo(k - 1);
      HarmonicOfPowerOfTwo(k - 1);
      HarmonicGrowth(m, m);
    }
  }

  // ---------- Fairness ----------

  /** No single credit exceeds W * (1/2 + ... + 1/n). */
  lemma {:induction false} CreditBound(w: seq<nat>, t: nat, i: nat)
    requires i < |w|
    ensures Credits(w, t)[i] as real <= Allowance(Total(w), |w|, 1)
  {
    hide Allowance, Select, Choice, SumOver, SumTo;
    assert Within({i}, |w|);
    HarmonicSubsetBound(w, t, {i});
    SumOverSingleton(Credits(w, t), |w|, i);
  }

  lemma {:induction false} AllowanceOfOne(W: int, n: nat)
    ensures Allowance(W, n, 1) == W as real * Harmonic(n) - W as real
  {
    assert Harmonic(1) == Harmonic(0) + 1.0 / 1.0;
    assert 1.0 * W as real == W as real;
  }

  /** How far position i is ahead of its proportional share over t selections from start on, times W. */
  ghost function Lead(w: seq<nat>, start: nat, t: nat, i: nat): int
    requires i < |w|
  {
    Total(w) * (Picks(w, start + t, i) - Picks(w, start, i)) - t * w[i]
  }

  /** In any window of any run the picks of a backend stay within H(n) of its proportional share. */
  lemma {:induction false} WindowFairness(w: seq<nat>, start: nat, t: nat, i: nat)
    requires i < |w| && Total(w) > 0
    ensures -(Total(w) as real * Harmonic(|w|)) < Lead(w, start, t, i) as real < Total(w) as real * Harmonic(|w|)
  {
    hide Allowance, Credits, Picks, Lead, SumTo, Harmonic;
    LeadIsCreditDrop(w, start, t, i);
    CreditBound(w, start, i);
    CreditBound(w, start + t, i);
    CreditAboveMinusTotal(w, start, i);
    CreditAboveMinusTotal(w, start + t, i);
    AllowanceOfOne(Total(w), |w|);
  }

  lemma {:induction false} LeadIsCreditDrop(w: seq<nat>, start: nat, t: nat, i: nat)
    requires i < |w|
    ensures Lead(w, start, t, i) == Credits(w, start)[i] - Credits(w, start + t)[i]
  {
    hide Credits, Picks, SumTo;
    Ledger(w, start, i);
    Ledger(w, start + t, i);
    LedgerDifference(start, t, w[i], Total(w), Picks(w, start, i), Picks(w, start + t, i));
  }

  lemma {:induction false} LedgerDifference(s: int, t: int, x: int, W: int, p: int, q: int)
    ensures W * (q - p) - t * x == (s * x - W * p) - ((s + t) * x - W * q)
  {
  }

  /** A backend left unpicked for t selections in a row has earned less than W * H(n). */
  lemma {:induction false} NoStarvation(w: seq<nat>, start: nat, t: nat, i: nat)
    requires i < |w| && Total(w) > 0
    requires forall s | start <= s < start + t :: Pick(w, s) != i
    ensures (t * w[i]) as real < Total(w) as real * Harmonic(|w|)
  {
    hide Credits, Picks, SumTo, Harmonic;
    UnpickedKeepsCount(w, start, t, i);
    WindowFairness(w, start, t, i);
    assert Lead(w, start, t, i) == Total(w) * 0 - t * w[i];
  }

  lemma {:induction false} UnpickedKeepsCount(w: seq<nat>, start: nat, t: nat, i: nat)
    requires i < |w|
    requires forall s | start <= s < start + t :: Pick(w, s) != i
    ensures Picks(w, start + t, i) == Picks(w, start, i)
  {
    hide Pick;
    if t > 0 {
      UnpickedKeepsCount(w, start, t - 1, i);
    }
  }

  /** A backend picked p times in a row leaves the others less than W * H(n) of unserved share. */
  lemma {:induction false} BurstBound(w: seq<nat>, start: nat, p: nat, i: nat)
    requires i < |w| && Total(w) > 0
    requires forall s | start <= s < start + p :: Pick(w, s) == i
    ensures (p * (Total(w) - w[i])) as real < Total(w) as real * Harmonic(|w|)
  {
    hide Credits, SumTo, Harmonic;
    BurstCounts(w, start, p, i);
    WindowFairness(w, start, p, i);
    BurstLead(Total(w), p, w[i]);
    assert Lead(w, start, p, i) == Total(w) * p - p * w[i];
  }

  lemma {:induction false} BurstLead(W: int, p: int, x: int)
    ensures p * (W - x) == W * p - p * x
  {
  }

  lemma {:induction false} BurstCounts(w: seq<nat>, start: nat, p: nat, i: nat)
    requires i < |w|
    requires forall s | start <= s < start + p :: Pick(w, s) == i
    ensures Picks(w, start + p, i) == Picks(w, start, i) + p
  {
    hide Pick;
    if p > 0 {
      BurstCounts(w, start, p - 1, i);
    }
  }
}
