/**
 Smooth Weighted Round Robin on slices that change: every mark hands the strategy a new healthy slice, while the
 credits stay with their positions. Any k of the n positions still hold at most W * k * (n - k) / 2 credit, where
 W bounds the total weight of every slice, so no credit strays further than W * (n - 1) / 2 from zero and the
 64-bit arithmetic stays exact through any number of health changes.
 */
module SmoothWrrSwitching {
  import opened Arithmetic
  import opened Sums
  import opened SmoothWrr
  import opened SmoothWrrBounds
  import opened SmoothWrrRange
  import opened Words

  /** Slices of at most n backends whose total weight is at most W. */
  ghost predicate Admitted(slices: seq<seq<nat>>, n: nat, W: nat) {
    forall w | w in slices :: 0 < |w| <= n && Total(w) <= W
  }

  /** Twice what k of n positions may hold. */
  function Cap(W: nat, n: nat, k: nat): int {
    W * (k * (n - k))
  }

  /** The weights of a slice on all n positions. */
  function Padded(w: seq<nat>, n: nat): (p: seq<nat>)
    requires |w| <= n
    ensures |p| == n
  {
    seq(n, i requires 0 <= i < n => if i < |w| then w[i] else 0)
  }

  lemma {:induction false} PaddedSum(w: seq<nat>, n: nat, m: nat)
    requires |w| <= n && m <= n
    ensures SumTo(Padded(w, n), m) == SumTo(w, if m <= |w| then m else |w|)
  {
    if m > 0 {
      PaddedSum(w, n, m - 1);
    }
  }

  // ---------- Two kinds of step ----------

  /** Any set of positions earns at most the total weight. */
  lemma {:induction false} EarnsAtMostTotal(c: seq<int>, w: seq<nat>, S: set<nat>)
    requires |w| <= |c|
    ensures SumOver(Add(c, w), |c|, S) <= SumOver(c, |c|, S) + Total(w)
  {
    var n, p := |c|, Padded(w, |c|);
    SumOverPointwise(c, p, Add(c, w), n, S);
    SumOverAtMostSum(p, n, S);
    PaddedSum(w, n, n);
  }

  /** When the winner lies in S, the credit of S does not grow. */
  lemma {:induction false} WinnerPays(c: seq<int>, w: seq<nat>, S: set<nat>)
    requires 0 < |w| <= |c| && Choice(c, w) in S
    ensures SumOver(Select(c, w), |c|, S) <= SumOver(c, |c|, S)
  {
    hide Choice;
    var a, p := Add(c, w), Choice(c, w);
    var v := a[p] - Total(w);
    EarnsAtMostTotal(c, w, S);
    SumOverUpdate(a, |c|, S, p, v);
  }

  lemma {:induction false} SumOverUnion(s: seq<int>, n: nat, A: set<nat>, B: set<nat>)
    requires n <= |s| && A !! B
    ensures SumOver(s, n, A + B) == SumOver(s, n, A) + SumOver(s, n, B)
  {
    if n > 0 {
      SumOverUnion(s, n - 1, A, B);
    }
  }

  lemma {:induction false} SumOverSame(a: seq<int>, b: seq<int>, n: nat, S: set<nat>)
    requires n <= |a| && n <= |b| && forall i | i in S && i < n :: a[i] == b[i]
    ensures SumOver(a, n, S) == SumOver(b, n, S)
  {
    if n > 0 {
      SumOverSame(a, b, n - 1, S);
    }
  }

  /** The positions of S that the slice has. */
  function Inside(S: set<nat>, m: nat): set<nat> {
    set i | i in S && i < m
  }

  /** When the winner lies outside S, the part of S in the slice is bounded by the winner's raised credit. */
  lemma {:induction false} WinnerElsewhere(c: seq<int>, w: seq<nat>, S: set<nat>)
    requires 0 < |w| <= |c| && Within(S, |c|) && Choice(c, w) !in S
    ensures var A, top := Inside(S, |w|), Add(c, w)[Choice(c, w)];
            && SumOver(Select(c, w), |c|, S) <= |A| * top + SumOver(c, |c|, S - A)
            && SumOver(Select(c, w), |c|, S) + top <= SumOver(c, |c|, S + {Choice(c, w)}) + Total(w)
  {
    var n, a, p := |c|, Add(c, w), Choice(c, w);
    var A := Inside(S, |w|);
    var B := S - A;
    hide Choice;
    var v := a[p] - Total(w);
    SumOverUpdate(a, n, S, p, v);
    assert A + B == S;
    SumOverUnion(a, n, A, B);
    SumOverAtMost(a, n, A, a[p]);
    SumOverSame(a, c, n, B);
    SumOverInsert(a, n, S, p);
    EarnsAtMostTotal(c, w, S + {p});
  }

  // ---------- The bound ----------

  /** alpha * (bound for k + 1, plus 2) + bound for beta, against (1 + alpha) * bound for k. */
  lemma {:induction false} CapPolynomial(n: int, alpha: int, beta: int)
    ensures var k := alpha + beta;
            (1 + alpha) * (k * (n - k)) - alpha * ((k + 1) * (n - k - 1) + 2) - beta * (n - beta) == alpha * (alpha - 1)
  {
  }

  lemma {:induction false} Weighted(W: int, alpha: int, p: int, q: int, r: int)
    ensures W * ((1 + alpha) * p - alpha * (q + 2) - r) == (1 + alpha) * (W * p) - alpha * (W * q + 2 * W) - W * r
  {
  }

  lemma {:induction false} CapArithmetic(W: nat, n: nat, alpha: nat, beta: nat, x: int, top: int, rest: int)
    requires x <= alpha * top + rest && 2 * rest <= Cap(W, n, beta)
    requires 2 * (x + top) <= Cap(W, n, alpha + beta + 1) + 2 * W
    ensures 2 * x <= Cap(W, n, alpha + beta)
  {
    var k := alpha + beta;
    var p, q, r := k * (n - k), (k + 1) * (n - k - 1), beta * (n - beta);
    CapPolynomial(n, alpha, beta);
    Weighted(W, alpha, p, q, r);
    Consecutive(alpha);
    NotNegative(W, alpha * (alpha - 1));
    assert n - (k + 1) == n - k - 1;
    CapFromParts(alpha, x, top, rest, W * p, W * q + 2 * W, W * r);
  }

  lemma {:induction false} Consecutive(x: nat)
    ensures x * (x - 1) >= 0
  {
  }

  lemma {:induction false} NotNegative(x: int, y: int)
    requires x >= 0 && y >= 0
    ensures x * y >= 0
  {
  }

  lemma {:induction false} CapFromParts(alpha: nat, x: int, top: int, rest: int, P: int, Q: int, R: int)
    requires x <= alpha * top + rest && 2 * rest <= R && 2 * (x + top) <= Q
    requires (1 + alpha) * P - alpha * Q - R >= 0
    ensures 2 * x <= P
  {
    Scaled(alpha, 2 * (x + top), Q);
    Collect(alpha, x, top);
    if 2 * x > P {
      Scaled(1 + alpha, P + 1, 2 * x);
      Distribute(1 + alpha, P, 1);
    }
  }

  lemma {:induction false} Scaled(m: int, x: int, y: int)
    requires m >= 0 && x <= y
    ensures m * x <= m * y
  {
  }

  lemma {:induction false} Collect(alpha: int, x: int, top: int)
    ensures (1 + alpha) * (2 * x) == 2 * x + alpha * (2 * (x + top)) - 2 * (alpha * top)
  {
  }

  lemma {:induction false} CapNotNegative(W: nat, n: nat, k: nat)
    requires k <= n
    ensures Cap(W, n, k) >= 0
  {
    NotNegative(k, n - k);
    NotNegative(W, k * (n - k));
  }

  /** Every set of positions of c is within its cap. */
  ghost predicate Capped(c: seq<int>, W: nat) {
    forall S: set<nat> | Within(S, |c|) :: 2 * SumOver(c, |c|, S) <= Cap(W, |c|, |S|)
  }

  lemma {:induction false} Sizes(S: set<nat>, n: nat, m: nat, p: nat)
    requires Within(S, n) && p < n && p !in S
    ensures |S| == |Inside(S, m)| + |S - Inside(S, m)| && |S + {p}| == |S| + 1
    ensures Within(S - Inside(S, m), n) && Within(S + {p}, n)
  {
    assert S == Inside(S, m) + (S - Inside(S, m));
  }

  lemma {:induction false} SelectKeepsCap(c: seq<int>, w: seq<nat>, W: nat, S: set<nat>)
    requires 0 < |w| <= |c| && Total(w) <= W && Capped(c, W) && Within(S, |c|)
    ensures 2 * SumOver(Select(c, w), |c|, S) <= Cap(W, |c|, |S|)
  {
    hide Choice, Select, SumOver, SumTo, Cap;
    var p := Choice(c, w);
    if p in S {
      WinnerPays(c, w, S);
    } else {
      var A := Inside(S, |w|);
      var B := S - A;
      Sizes(S, |c|, |w|, p);
      hide Inside, Within;
      assert 2 * SumOver(c, |c|, B) <= Cap(W, |c|, |B|);
      assert 2 * SumOver(c, |c|, S + {p}) <= Cap(W, |c|, |S + {p}|);
      WinnerElsewhere(c, w, S);
      CapArithmetic(W, |c|, |A|, |B|, SumOver(Select(c, w), |c|, S), Add(c, w)[p], SumOver(c, |c|, B));
    }
  }

  /** Whatever slices come and go, any k of the n positions hold at most W * k * (n - k) / 2 credit together. */
  lemma {:induction false} SwitchingBound(n: nat, W: nat, slices: seq<seq<nat>>)
    requires Admitted(slices, n, W)
    ensures Capped(SelectAll(Zeros(n), slices), W)
  {
    hide Select, Cap;
    if |slices| == 0 {
      forall S: set<nat> | Within(S, n) ensures 2 * SumOver(Zeros(n), n, S) <= Cap(W, n, |S|) {
        ZerosSumOver(n, n, S);
        SubsetSize(S, n);
        CapNotNegative(W, n, |S|);
      }
    } else {
      var before, w := slices[..|slices| - 1], slices[|slices| - 1];
      SwitchingBound(n, W, before);
      var c := SelectAll(Zeros(n), before);
      forall S: set<nat> | Within(S, n) ensures 2 * SumOver(Select(c, w), n, S) <= Cap(W, n, |S|) {
        SelectKeepsCap(c, w, W, S);
      }
    }
  }

  lemma {:induction false} SumOverAll(s: seq<int>, n: nat, S: set<nat>)
    requires n <= |s| && forall i: nat | i < n :: i in S
    ensures SumOver(s, n, S) == SumTo(s, n)
  {
    if n > 0 {
      SumOverAll(s, n - 1, S);
    }
  }

  lemma {:induction false} AllPositions(n: nat) returns (all: set<nat>)
    ensures |all| == n && forall i: nat :: i in all <==> i < n
  {
    if n == 0 {
      all := {};
    } else {
      all := AllPositions(n - 1);
      all := all + {n - 1};
    }
  }

  /** So no credit ever strays further than W * (n - 1) / 2 from zero. */
  lemma {:induction false} SwitchingCreditBound(n: nat, W: nat, slices: seq<seq<nat>>, i: nat)
    requires Admitted(slices, n, W) && i < n
    ensures -(W * (n - 1)) <= 2 * SelectAll(Zeros(n), slices)[i] <= W * (n - 1)
  {
    hide SelectAll, SumOver, SumTo;
    var c := SelectAll(Zeros(n), slices);
    SwitchingBound(n, W, slices);
    CreditsAlwaysSumToZero(n, slices);
    var all := AllPositions(n);
    var others := all - {i};
    assert all == others + {i};
    assert |others| == n - 1;
    SumOverAll(c, n, all);
    SumOverInsert(c, n, others, i);
    SumOverSingleton(c, n, i);
    assert Within({i}, n) && Within(others, n) && |{i}| == 1;
    assert 1 * (n - 1) == n - 1 && (n - 1) * (n - (n - 1)) == n - 1;
  }

  // ---------- The bound is nearly reached ----------

  /** The last of the first m credits is above their average by (W - 1) * (m - 1) / 2. */
  ghost predicate Peak(c: seq<int>, m: nat, W: nat)
    requires 0 < m <= |c|
  {
    2 * (m * c[m - 1]) >= Crest(c, m, W)
  }

  function Crest(c: seq<int>, m: nat, W: nat): int
    requires 0 < m <= |c|
  {
    2 * SumTo(c, m) + m * (m - 1) * (W - 1)
  }

  /** How much is missing to the peak. */
  function Missing(c: seq<int>, m: nat, W: nat): nat
    requires 0 < m <= |c|
  {
    var d := Crest(c, m, W) - 2 * (m * c[m - 1]);
    if d > 0 then d else 0
  }

  lemma {:induction false} SelectAllAppend(c: seq<int>, a: seq<seq<nat>>, b: seq<seq<nat>>)
    requires forall w | w in a + b :: 0 < |w| <= |c|
    ensures SelectAll(c, a + b) == SelectAll(SelectAll(c, a), b)
  {
    hide Select;
    if |b| == 0 {
      assert a + b == a;
    } else {
      var rest := b[..|b| - 1];
      assert a + b == a + rest + [b[|b| - 1]];
      assert (a + b)[..|a + b| - 1] == a + rest;
      SelectAllAppend(c, a, rest);
    }
  }

  /** A selection on a slice of at most m backends moves credit among the first m positions only. */
  lemma {:induction false} SelectStaysWithin(c: seq<int>, w: seq<nat>, m: nat)
    requires 0 < |w| <= m <= |c|
    ensures SumTo(Select(c, w), m) == SumTo(c, m)
    ensures forall i | m <= i < |c| :: Select(c, w)[i] == c[i]
  {
    hide FirstMax;
    AddRaisesSum(c, w, m);
    SumToLowered(Add(c, w), m, Choice(c, w), Total(w));
  }

  /** Zero weights but for the last two. */
  function LastTwo(m: nat, t: nat, u: nat): (w: seq<nat>)
    requires m >= 2
    ensures |w| == m
  {
    seq(m, i => if i == m - 1 then u else if i == m - 2 then t else 0)
  }

  lemma {:induction false} LastTwoTotal(m: nat, t: nat, u: nat)
    requires m >= 2
    ensures Total(LastTwo(m, t, u)) == t + u
  {
    var w := LastTwo(m, t, u);
    SumToAtMost(w, m - 2, 0);
    SumToAtLeast(w, m - 2, 0);
    assert SumTo(w, m - 1) == SumTo(w, m - 2) + t;
  }

  /** A slice on which position m - 1 gains u and another one pays. */
  lemma {:induction false} Lift(c: seq<int>, m: nat, t: nat, u: nat)
    requires 2 <= m <= |c| && c[m - 2] + t >= c[m - 1] + u
    ensures Select(c, LastTwo(m, t, u))[m - 1] == c[m - 1] + u
  {
    var w := LastTwo(m, t, u);
    var a := Add(c, w);
    assert a[m - 2] == c[m - 2] + t && a[m - 1] == c[m - 1] + u;
    assert IsFirstMax(a, m, Choice(c, w));
    hide SumTo, FirstMax;
  }

  /** While there is no peak on m positions, a peak on m - 1 of them is within reach of the last. */
  lemma {:induction false} WithinReach(m: int, y: int, z: int, S: int, V: int)
    requires m >= 2 && 2 * ((m - 1) * y) >= 2 * (S - z) + (m - 1) * (m - 2) * V && 2 * (m * z) < 2 * S + m * (m - 1) * V
    ensures y + V >= z + 1
  {
    if y + V <= z {
      Scaled(m - 1, y + V, z);
      Distribute(m - 1, y, V);
      assert m * z == (m - 1) * z + z;
      TwoShares(m, V);
    }
  }

  lemma {:induction false} TwoShares(m: int, V: int)
    ensures (m - 1) * (m - 2) * V + 2 * ((m - 1) * V) == m * (m - 1) * V
  {
  }

  /** From any credits, slices of at most m backends lift the last of m positions to a peak. */
  lemma {:induction false} Climb(c: seq<int>, m: nat, W: nat) returns (slices: seq<seq<nat>>)
    requires 0 < m <= |c| && W > 0
    ensures Admitted(slices, m, W)
    ensures var c' := SelectAll(c, slices);
            Peak(c', m, W) && SumTo(c', m) == SumTo(c, m) && forall i | m <= i < |c| :: c'[i] == c[i]
    decreases m, Missing(c, m, W)
  {
    hide Select, SumTo;
    if Peak(c, m, W) {
      slices := [];
    } else {
      if m == 1 {
        PeakOfOne(c, W);
      }
      var below := Climb(c, m - 1, W);
      var c1 := SelectAll(c, below);
      SumAtLast(c, m);
      SumAtLast(c1, m);
      WithinReach(m, c1[m - 2], c1[m - 1], SumTo(c1, m), W - 1);
      var w := StepUp(c1, m, W);
      var c2 := Select(c1, w);
      SelectStaysWithin(c1, w, m);
      MissingLess(c, c2, m, W);
      var above := Climb(c2, m, W);
      slices := below + [w] + above;
      assert SelectAll(c1, [w]) == c2 by {
        assert SelectAll(c1, [w][..0]) == c1;
      }
      SelectAllAppend(c, below, [w]);
      SelectAllAppend(c, below + [w], above);
    }
  }

  lemma {:induction false} PeakOfOne(c: seq<int>, W: nat)
    requires |c| > 0
    ensures Peak(c, 1, W)
  {
    assert SumTo(c, 1) == c[0];
    assert 1 * 0 * (W - 1) == 0;
  }

  lemma {:induction false} SumAtLast(c: seq<int>, m: nat)
    requires 0 < m <= |c|
    ensures SumTo(c, m) == SumTo(c, m - 1) + c[m - 1]
  {
  }

  /** One slice of total W that lifts the last of m positions. */
  lemma {:induction false} StepUp(c: seq<int>, m: nat, W: nat) returns (w: seq<nat>)
    requires 2 <= m <= |c| && W > 0 && c[m - 2] + W - 1 >= c[m - 1] + 1
    ensures |w| == m && Total(w) == W && Select(c, w)[m - 1] > c[m - 1]
  {
    hide SumTo, Select;
    var gap := c[m - 1] + W - c[m - 2];
    var t: nat := if gap <= 0 then 0 else (gap + 1) / 2;
    w := LastTwo(m, t, W - t);
    LastTwoTotal(m, t, W - t);
    Lift(c, m, t, W - t);
  }

  lemma {:induction false} MissingLess(c: seq<int>, c': seq<int>, m: nat, W: nat)
    requires 0 < m <= |c| == |c'| && !Peak(c, m, W) && SumTo(c', m) == SumTo(c, m) && c'[m - 1] > c[m - 1]
    ensures Missing(c', m, W) < Missing(c, m, W)
  {
    hide SumTo;
    ProductOrder(m, c[m - 1], c'[m - 1]);
  }

  /** Some run lifts a credit to (W - 1) * (n - 1) / 2, so the bound cannot be lowered by more than (n - 1) / 2. */
  lemma {:induction false} SwitchingBoundIsNearlyReached(n: nat, W: nat) returns (slices: seq<seq<nat>>)
    requires n > 0 && W > 0
    ensures Admitted(slices, n, W)
    ensures 2 * SelectAll(Zeros(n), slices)[n - 1] >= (W - 1) * (n - 1)
  {
    hide SelectAll;
    slices := Climb(Zeros(n), n, W);
    var x := SelectAll(Zeros(n), slices)[n - 1];
    SumToAtLeast(Zeros(n), n, 0);
    hide SumTo, Select;
    assert n * (n - 1) * (W - 1) == n * ((W - 1) * (n - 1));
    assert 2 * (n * x) == n * (2 * x);
    ProductOrder(n, 2 * x, (W - 1) * (n - 1));
  }

  // ---------- The 64-bit range ----------

  /** Totals and pool size for which changing slices are proved to stay in range. */
  ghost predicate Roomy(n: nat, W: nat) {
    W * (n + 1) < TWO_64
  }

  /** Up to 65535 backends with 32-bit weights are roomy, whatever their health. */
  lemma {:induction false} U32PoolsAreRoomy(n: nat, slices: seq<seq<nat>>)
    requires n < 0x1_0000 && forall w | w in slices :: 0 < |w| <= n && AreU32(w)
    ensures Roomy(n, n * (TWO_32 - 1)) && Admitted(slices, n, n * (TWO_32 - 1))
  {
    forall w | w in slices ensures Total(w) <= n * (TWO_32 - 1) {
      SumToAtMost(w, |w|, TWO_32 - 1);
    }
    SquareAtMost(n);
    Reorder(n, TWO_32 - 1, n + 1);
  }

  lemma {:induction false} SquareAtMost(n: nat)
    requires n < 0x1_0000
    ensures n * (n + 1) <= 0xFFFF * 0x1_0000
  {
    Scaled(n, n + 1, 0x1_0000);
  }

  lemma {:induction false} TotalFits(n: nat, W: nat)
    requires n > 0 && Roomy(n, W)
    ensures W <= I64_MAX
  {
    Scaled(W, 2, n + 1);
  }

  lemma {:induction false} RoomFor(n: nat, W: nat, x: int, earned: nat)
    requires n > 0 && Roomy(n, W) && earned <= W
    requires -(W * (n - 1)) <= 2 * x <= W * (n - 1)
    ensures InI64(x) && I64_MIN < x + earned <= I64_MAX
  {
    Distribute(W, n - 1, 2);
    NotNegative(W, n - 1);
    assert W * (n + 1) == W * (n - 1) + W * 2;
  }

  /** No selection of any run leaves 64 bits, through any changes of the slice. */
  lemma {:induction false} SwitchingNeverWraps(n: nat, W: nat, slices: seq<seq<nat>>, w: seq<nat>)
    requires Admitted(slices + [w], n, W) && Roomy(n, W)
    ensures StaysInRange(SelectAll(Zeros(n), slices), w)
  {
    hide SelectAll, Select, SumTo, Roomy;
    assert w in slices + [w] && forall v | v in slices :: v in slices + [w];
    var c := SelectAll(Zeros(n), slices);
    AllSelected(n, slices, w);
    TotalFits(n, W);
    forall i | 0 <= i < n
      ensures InI64(c[i]) && I64_MIN < Add(c, w)[i] <= I64_MAX
      ensures InI64(Select(c, w)[i])
    {
      if i < |w| {
        EntryAtMostSum(w, |w|, i);
      }
      SwitchingCreditBound(n, W, slices, i);
      RoomFor(n, W, c[i], if i < |w| then w[i] else 0);
      SwitchingCreditBound(n, W, slices + [w], i);
      RoomFor(n, W, Select(c, w)[i], 0);
    }
    TotalsStayInRange(w);
  }

  lemma {:induction false} AllSelected(n: nat, slices: seq<seq<nat>>, w: seq<nat>)
    requires 0 < |w| <= n && forall v | v in slices :: 0 < |v| <= n
    ensures SelectAll(Zeros(n), slices + [w]) == Select(SelectAll(Zeros(n), slices), w)
  {
    assert (slices + [w])[..|slices|] == slices;
  }

  /** So each 64-bit selection picks and leaves what the unbounded one does. */
  lemma {:induction false} SwitchingIsExact(n: nat, W: nat, slices: seq<seq<nat>>, w: seq<nat>)
    requires Admitted(slices + [w], n, W) && Roomy(n, W) && 0 < |w| <= n
    requires forall v | v in slices :: 0 < |v| <= n
    ensures var c := SelectAll(Zeros(n), slices);
            WrappedChoice(c, w) == Choice(c, w) && WrappedSelect(c, w) == Select(c, w)
  {
    hide StaysInRange, WrappedChoice, WrappedSelect, Choice, Select, Roomy;
    SwitchingNeverWraps(n, W, slices, w);
    InRangeIsExact(SelectAll(Zeros(n), slices), w);
  }

  /** The credits after 64-bit selections on the given slices. */
  function WrappedSelectAll(c: seq<int>, slices: seq<seq<nat>>): (c': seq<int>)
    requires forall w | w in slices :: 0 < |w| <= |c|
    ensures |c'| == |c|
  {
    if |slices| == 0 then c
    else WrappedSelect(WrappedSelectAll(c, slices[..|slices| - 1]), slices[|slices| - 1])
  }

  /** The whole 64-bit run over changing slices is the unbounded one. */
  lemma {:induction false} SwitchingRunsAgree(n: nat, W: nat, slices: seq<seq<nat>>)
    requires Admitted(slices, n, W) && Roomy(n, W)
    ensures WrappedSelectAll(Zeros(n), slices) == SelectAll(Zeros(n), slices)
  {
    hide WrappedSelect, Select, Roomy;
    if |slices| > 0 {
      var before, w := slices[..|slices| - 1], slices[|slices| - 1];
      assert slices == before + [w];
      SwitchingRunsAgree(n, W, before);
      SwitchingIsExact(n, W, before, w);
    }
  }
}
