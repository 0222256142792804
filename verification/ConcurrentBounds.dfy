/**
 How far the shared credits can stray when calls overlap. However long the run and whatever slices the calls bring,
 if at most r of them are in flight at once then any k of the n positions hold at most 3/2 * r * W * k * (n - k)
 settled credit, W bounding every total. So credits stay in 64 bits, the ledger is exact, and with one slice every
 backend keeps its share, although each call compares credits that it reads at different times.
 */
module ConcurrentBounds {
  import opened Arithmetic
  import opened Sums
  import opened SmoothWrr
  import opened SmoothWrrBounds
  import opened SmoothWrrSwitching
  import opened Words
  import opened WrrInterleaving

  /** The calls that have not ended. */
  ghost function Open(calls: seq<Call>, m: nat): set<nat>
    requires m <= |calls|
  {
    set k | 0 <= k < m && !calls[k].phase.Returned?
  }

  /** What a call that has returned did to position i. */
  ghost function Kept(i: nat): Call -> int {
    (c: Call) => if c.phase.Returned? then Gained(i)(c) else 0
  }

  /** What a call still in flight has done to it. */
  ghost function InHand(i: nat): Call -> int {
    (c: Call) => if c.phase.Returned? then 0 else Gained(i)(c)
  }

  /** The credits as the calls that have returned left them. */
  ghost function Settled(n: nat, calls: seq<Call>, m: nat): (d: seq<int>)
    requires m <= |calls|
    ensures |d| == n && forall i | 0 <= i < n :: d[i] == Tally(calls, m, Kept(i))
  {
    seq(n, i requires 0 <= i < n => Tally(calls, m, Kept(i)))
  }

  /** What the positions in S hold of it. */
  ghost function Hold(s: State, S: set<nat>): int {
    SumOver(Settled(|s.credits|, s.calls, |s.calls|), |s.credits|, S)
  }

  /** Slices no longer than the credits, totals of at most W, and at most r calls in flight. */
  ghost predicate Limits(s: State, W: nat, r: nat) {
    && (forall k | 0 <= k < |s.calls| :: |s.calls[k].slice| <= |s.credits| && Total(s.calls[k].slice) <= W)
    && |Open(s.calls, |s.calls|)| <= r
  }

  // ---------- Settled credits and real ones ----------

  lemma {:induction false} DueIsSettledAndInHand(calls: seq<Call>, m: nat, i: nat)
    requires m <= |calls|
    ensures Due(calls, m, i) == Tally(calls, m, Kept(i)) + Tally(calls, m, InHand(i))
  {
    if m > 0 {
      hide Gained;
      DueIsSettledAndInHand(calls, m - 1, i);
    }
  }

  lemma {:induction false} OpenStep(calls: seq<Call>, m: nat)
    requires m < |calls|
    ensures |Open(calls, m + 1)| == |Open(calls, m)| + if calls[m].phase.Returned? then 0 else 1
  {
    if calls[m].phase.Returned? {
      assert Open(calls, m + 1) == Open(calls, m);
    } else {
      assert Open(calls, m + 1) == Open(calls, m) + {m};
    }
  }

  lemma {:induction false} InHandOfOne(c: Call, i: nat, W: nat)
    requires Total(c.slice) <= W
    ensures 0 <= InHand(i)(c) <= if c.phase.Returned? then 0 else W
  {
    GainedWithinTotal(c, i);
  }

  lemma {:induction false} InHandBound(calls: seq<Call>, m: nat, i: nat, W: nat)
    requires m <= |calls| && forall k | 0 <= k < |calls| :: Total(calls[k].slice) <= W
    ensures 0 <= Tally(calls, m, InHand(i)) <= W * |Open(calls, m)|
  {
    if m == 0 {
      assert Open(calls, 0) == {};
      assert W * 0 == 0;
    } else {
      hide SumTo, Open, InHand;
      InHandBound(calls, m - 1, i, W);
      OpenStep(calls, m - 1);
      InHandOfOne(calls[m - 1], i, W);
      Distribute(W, |Open(calls, m - 1)|, 1);
      assert W * 1 == W;
    }
  }

  /** A due exceeds the settled credit by at most what r calls can have in hand. */
  lemma {:induction false} DueNearSettled(s: State, i: nat, W: nat, r: nat)
    requires i < |s.credits| && Limits(s, W, r)
    ensures var d := Settled(|s.credits|, s.calls, |s.calls|)[i];
            d <= Due(s.calls, |s.calls|, i) <= d + r * W
  {
    hide Due, Tally, Open, SumTo;
    DueIsSettledAndInHand(s.calls, |s.calls|, i);
    InHandBound(s.calls, |s.calls|, i, W);
    Scaled(W, |Open(s.calls, |s.calls|)|, r);
    assert W * r == r * W;
  }

  /** The settled credits sum to zero. */
  lemma {:induction false} SettledSum(n: nat, calls: seq<Call>, m: nat)
    requires m <= |calls| && forall k | 0 <= k < |calls| :: CallOk(n, calls[k])
    ensures SumTo(Settled(n, calls, m), n) == 0
  {
    var d := Settled(n, calls, m);
    if m == 0 {
      forall i | 0 <= i < n ensures d[i] == 0 {
        assert d[i] == Tally(calls, 0, Kept(i));
      }
      SumToAtMost(d, n, 0);
      SumToAtLeast(d, n, 0);
    } else {
      hide SumTo, CallOk, Gained;
      var c, before := calls[m - 1], Settled(n, calls, m - 1);
      SettledSum(n, calls, m - 1);
      forall i | 0 <= i < n ensures d[i] == before[i] + if c.phase.Returned? then Share(n, c)[i] else 0 {
        assert d[i] == Tally(calls, m, Kept(i)) == Tally(calls, m - 1, Kept(i)) + Kept(i)(c);
      }
      if c.phase.Returned? {
        ShareSum(n, c);
        SumToPointwise(before, Share(n, c), d, n);
      } else {
        assert d == before;
      }
    }
  }

  // ---------- The bound and its threshold ----------

  /** Twice what k of n positions may hold, r calls of total at most W being in flight. */
  function Bound(n: nat, W: nat, r: nat, k: nat): int {
    Cap(3 * (r * W), n, k)
  }

  /** Above this, a set of k positions is overloaded: r more calls could break its bound. */
  function Brink(n: nat, W: nat, r: nat, k: nat): int {
    Bound(n, W, r, k) - 2 * (r * W)
  }

  /** Twice the credit that parts an overloaded set of k positions from all others. */
  function Divide(n: nat, W: nat, r: nat, k: nat): int
    requires k > 0
  {
    Brink(n, W, r, k) - Bound(n, W, r, k - 1)
  }

  lemma {:induction false} CapIsConcave(V: nat, n: nat, k: nat)
    requires k > 0
    ensures 2 * Cap(V, n, k) - Cap(V, n, k - 1) - Cap(V, n, k + 1) == 2 * V
  {
    var x, y, z := k * (n - k), (k - 1) * (n - (k - 1)), (k + 1) * (n - (k + 1));
    SecondDifference(n, k);
    assert 2 * x - y - z == 2;
    Combine(V, x, y, z);
  }

  lemma {:induction false} SecondDifference(n: int, k: int)
    ensures 2 * (k * (n - k)) - (k - 1) * (n - (k - 1)) - (k + 1) * (n - (k + 1)) == 2
  {
  }

  lemma {:induction false} Combine(V: int, x: int, y: int, z: int)
    ensures V * (2 * x - y - z) == 2 * (V * x) - V * y - V * z
  {
  }

  /** Every set of positions is within its bound. */
  ghost predicate AllBounded(s: State, W: nat, r: nat) {
    forall S: set<nat> | Within(S, |s.credits|) :: 2 * Hold(s, S) <= Bound(|s.credits|, W, r, |S|)
  }

  ghost predicate Exact(s: State) {
    forall i | 0 <= i < |s.credits| :: s.credits[i] == Due(s.calls, |s.calls|, i)
  }

  ghost predicate Overloaded(s: State, S: set<nat>, W: nat, r: nat) {
    2 * Hold(s, S) > Brink(|s.credits|, W, r, |S|)
  }

  lemma {:induction false} HoldInsert(s: State, S: set<nat>, i: nat)
    requires i < |s.credits| && i !in S
    ensures Hold(s, S + {i}) == Hold(s, S) + Settled(|s.credits|, s.calls, |s.calls|)[i]
  {
    SumOverInsert(Settled(|s.credits|, s.calls, |s.calls|), |s.credits|, S, i);
  }

  lemma {:induction false} BoundIsConcave(n: nat, W: nat, r: nat, k: nat)
    requires k > 0
    ensures 2 * Bound(n, W, r, k) - Bound(n, W, r, k - 1) - Bound(n, W, r, k + 1) == 6 * (r * W)
  {
    NotNegative(r, W);
    CapIsConcave(3 * (r * W), n, k);
  }

  lemma {:induction false} WithoutOne(s: State, S: set<nat>, i: nat, W: nat, r: nat)
    requires AllBounded(s, W, r) && Within(S, |s.credits|) && i in S
    ensures 2 * (Hold(s, S) - Settled(|s.credits|, s.calls, |s.calls|)[i]) <= Bound(|s.credits|, W, r, |S| - 1)
  {
    var rest := S - {i};
    assert S == rest + {i} && Within(rest, |s.credits|) && |rest| == |S| - 1;
    HoldInsert(s, rest, i);
    hide Hold, Bound;
    assert 2 * Hold(s, rest) <= Bound(|s.credits|, W, r, |rest|);
  }

  lemma {:induction false} WithOneMore(s: State, S: set<nat>, i: nat, W: nat, r: nat)
    requires AllBounded(s, W, r) && Within(S, |s.credits|) && i !in S && i < |s.credits|
    ensures 2 * (Hold(s, S) + Settled(|s.credits|, s.calls, |s.calls|)[i]) <= Bound(|s.credits|, W, r, |S| + 1)
  {
    var more := S + {i};
    assert Within(more, |s.credits|) && |more| == |S| + 1;
    HoldInsert(s, S, i);
    hide Hold, Bound;
    assert 2 * Hold(s, more) <= Bound(|s.credits|, W, r, |more|);
  }

  lemma {:induction false} DivideArithmetic(below: int, here: int, above: int, U: int, hold: int, d: int, c: int)
    requires 2 * hold > here - 2 * U && d <= c <= d + U
    ensures 2 * (hold - d) <= below ==> 2 * c > here - 2 * U - below
    ensures 2 * (hold + d) <= above && 2 * here - below - above == 6 * U ==> 2 * c < here - 2 * U - below
  {
  }

  /** While a set is overloaded, its credits lie above the divide and all others below it. */
  lemma {:induction false} Separated(s: State, S: set<nat>, i: nat, W: nat, r: nat)
    requires Limits(s, W, r) && AllBounded(s, W, r) && Exact(s)
    requires Within(S, |s.credits|) && S != {} && Overloaded(s, S, W, r) && i < |s.credits|
    ensures i in S ==> 2 * s.credits[i] > Divide(|s.credits|, W, r, |S|)
    ensures i !in S ==> 2 * s.credits[i] < Divide(|s.credits|, W, r, |S|)
  {
    assert s.credits[i] == Due(s.calls, |s.calls|, i);
    hide Limits, AllBounded, Exact, Due, Hold, Bound, Settled, Within;
    var n, k := |s.credits|, |S|;
    DueNearSettled(s, i, W, r);
    if i in S {
      WithoutOne(s, S, i, W, r);
    } else {
      WithOneMore(s, S, i, W, r);
      BoundIsConcave(n, W, r, k);
    }
    DivideArithmetic(Bound(n, W, r, k - 1), Bound(n, W, r, k), Bound(n, W, r, k + 1), r * W, Hold(s, S),
                     Settled(n, s.calls, |s.calls|)[i], s.credits[i]);
  }

  // ---------- Calls that an overloaded set has captured ----------

  /** The positions the call has compared. */
  function Compared(c: Call): int {
    if c.phase.Comparing? || c.phase.Reloading? then c.passed - 1 else c.passed
  }

  /** The call cannot pick outside S: it has seen nothing of S and no high credit, or holds a high credit of S. */
  ghost predicate Captured(c: Call, S: set<nat>, divide: int) {
    || ((forall i | i in S :: i >= Compared(c)) && 2 * c.bestCredit <= divide)
    || (c.bestIndex in S && 2 * c.bestCredit > divide && (c.phase.Reloading? ==> c.passed - 1 in S))
  }

  /** The calls outside L are captured, and S has room for all those in L. */
  ghost predicate Guarded(s: State, S: set<nat>, L: set<nat>, W: nat, r: nat) {
    && S != {} && L <= Open(s.calls, |s.calls|)
    && 2 * Hold(s, S) + 2 * (W * |L|) <= Bound(|s.credits|, W, r, |S|)
    && forall k | k in Open(s.calls, |s.calls|) - L :: Captured(s.calls[k], S, Divide(|s.credits|, W, r, |S|))
  }

  /** Proper sets of positions are guarded. */
  ghost predicate Contained(s: State, W: nat, r: nat) {
    forall S: set<nat> | Within(S, |s.credits|) && 0 < |S| < |s.credits| ::
      exists L: set<nat> :: Guarded(s, S, L, W, r)
  }

  /** A set that is not overloaded has room for every call in flight. */
  lemma {:induction false} RoomForAll(s: State, S: set<nat>, W: nat, r: nat)
    requires Limits(s, W, r) && S != {} && !Overloaded(s, S, W, r)
    ensures Guarded(s, S, Open(s.calls, |s.calls|), W, r)
  {
    hide Hold, Bound;
    Scaled(W, |Open(s.calls, |s.calls|)|, r);
    assert W * r == r * W;
  }

  lemma {:induction false} ContainedIsBounded(s: State, W: nat, r: nat)
    requires CallsOk(s) && Contained(s, W, r)
    ensures AllBounded(s, W, r)
  {
    var n, d := |s.credits|, Settled(|s.credits|, s.calls, |s.calls|);
    hide SumOver, SumTo, CallOk, Cap, Settled;
    forall S: set<nat> | Within(S, n) ensures 2 * Hold(s, S) <= Bound(n, W, r, |S|) {
      SubsetSize(S, n);
      if S == {} {
        SumOverEmpty(d, n);
        CapNotNegative(3 * (r * W), n, 0);
      } else if |S| < n {
        var L: set<nat> :| Guarded(s, S, L, W, r);
        NotNegative(W, |L|);
      } else {
        WholeSet(S, n);
        SumOverAll(d, n, S);
        SettledSum(n, s.calls, |s.calls|);
        CapNotNegative(3 * (r * W), n, n);
      }
    }
  }

  lemma {:induction false} WholeSet(S: set<nat>, n: nat)
    requires Within(S, n) && |S| == n
    ensures forall i: nat | i < n :: i in S
  {
    forall i: nat | i < n ensures i in S {
      if i !in S {
        SubsetSize(S + {i}, n);
      }
    }
  }

  // ---------- One step ----------

  /** A step of a call leaves the settled credits as they are unless it is the last one. */
  lemma {:induction false} SettledStep(n: nat, calls: seq<Call>, k: nat, c: Call)
    requires k < |calls| && !calls[k].phase.Returned?
    ensures var d, d' := Settled(n, calls, |calls|), Settled(n, calls[k := c], |calls|);
            forall i | 0 <= i < n :: d'[i] == d[i] + if c.phase.Returned? then Share(n, c)[i] else 0
  {
    hide Gained, Tally;
    var d, d' := Settled(n, calls, |calls|), Settled(n, calls[k := c], |calls|);
    forall i | 0 <= i < n ensures d'[i] == d[i] + if c.phase.Returned? then Share(n, c)[i] else 0 {
      TallyUpdate(calls, |calls|, Kept(i), k, c);
    }
  }

  lemma {:induction false} SettledAppend(n: nat, calls: seq<Call>, c: Call)
    requires !c.phase.Returned?
    ensures Settled(n, calls + [c], |calls| + 1) == Settled(n, calls, |calls|)
  {
    var d, d' := Settled(n, calls, |calls|), Settled(n, calls + [c], |calls| + 1);
    forall i | 0 <= i < n ensures d'[i] == d[i] {
      TallyAppend(calls, |calls|, Kept(i), c);
    }
  }

  /** What a returning call does to S: at most W, and nothing upwards when it picked in S or S lies beyond its slice. */
  lemma {:induction false} ShareOver(n: nat, c: Call, S: set<nat>, W: nat)
    requires CallOk(n, c) && c.phase.Returned? && |c.slice| <= n && Total(c.slice) <= W
    ensures SumOver(Share(n, c), n, S) <= W
    ensures c.bestIndex in S ==> SumOver(Share(n, c), n, S) <= 0
    ensures (forall i | i in S :: i >= |c.slice|) ==> SumOver(Share(n, c), n, S) <= 0
  {
    hide SumTo;
    var p := Padded(c.slice, n);
    var v := p[c.bestIndex] - Total(c.slice);
    forall i | 0 <= i < n ensures Share(n, c)[i] == if i == c.bestIndex then v else p[i] {
      assert Share(n, c)[i] == Gained(i)(c);
    }
    ghost var paid: seq<int> := p;
    paid := paid[c.bestIndex := v];
    assert Share(n, c) == paid;
    SumOverUpdate(p, n, S, c.bestIndex, v);
    SumOverAtMostSum(p, n, S);
    PaddedSum(c.slice, n, n);
    SumToAtLeast(c.slice, |c.slice|, 0);
    if forall i | i in S :: i >= |c.slice| {
      SumOverSame(p, Zeros(n), n, S);
      ZerosSumOver(n, n, S);
    }
  }

  /** While S is overloaded a captured call stays captured. */
  lemma {:induction false} StaysCaptured(s: State, S: set<nat>, k: nat, W: nat, r: nat)
    requires CallsOk(s) && Limits(s, W, r) && AllBounded(s, W, r) && Exact(s)
    requires Within(S, |s.credits|) && S != {} && Overloaded(s, S, W, r)
    requires k < |s.calls| && !s.calls[k].phase.Returned?
    requires Captured(s.calls[k], S, Divide(|s.credits|, W, r, |S|))
    ensures var c' := CallStep(s.credits, s.calls[k]).1;
            !c'.phase.Returned? ==> Captured(c', S, Divide(|s.credits|, W, r, |S|))
  {
    var c := s.calls[k];
    assert CallOk(|s.credits|, c);
    hide SumTo, Wrap, Divide, AllBounded, Exact, Overloaded, Limits, CallsOk, Within;
    if c.phase.Comparing? || c.phase.Reloading? {
      Separated(s, S, c.passed - 1, W, r);
    }
  }

  lemma {:induction false} EnterGuarded(s: State, w: seq<nat>, S: set<nat>, L: set<nat>, W: nat, r: nat)
    requires Limits(State(s.credits, s.calls + [Entered(w)]), W, r) && Guarded(s, S, L, W, r)
    requires 2 * I64_MIN <= Divide(|s.credits|, W, r, |S|)
    ensures exists L': set<nat> :: Guarded(State(s.credits, s.calls + [Entered(w)]), S, L', W, r)
  {
    var s' := State(s.credits, s.calls + [Entered(w)]);
    SettledAppend(|s.credits|, s.calls, Entered(w));
    hide Settled, SumOver, Bound, Limits;
    assert Hold(s', S) == Hold(s, S);
    if Overloaded(s', S, W, r) {
      assert Open(s'.calls, |s'.calls|) == Open(s.calls, |s.calls|) + {|s.calls|};
      assert Guarded(s', S, L, W, r);
    } else {
      RoomForAll(s', S, W, r);
    }
  }

  /** A step that does not end its call. */
  lemma {:induction false} MoveGuarded(s: State, credits: seq<int>, S: set<nat>, L: set<nat>, k: nat, c: Call,
                                       W: nat, r: nat)
    requires Guarded(s, S, L, W, r) && |credits| == |s.credits| && k < |s.calls|
    requires !s.calls[k].phase.Returned? && !c.phase.Returned?
    requires k in L || Captured(c, S, Divide(|s.credits|, W, r, |S|))
    ensures Guarded(State(credits, s.calls[k := c]), S, L, W, r)
  {
    var s' := State(credits, s.calls[k := c]);
    var n := |credits|;
    SettledStep(n, s.calls, k, c);
    hide SumOver, Bound, Captured, Divide, Settled;
    assert Settled(n, s'.calls, |s'.calls|) == Settled(n, s.calls, |s.calls|);
    assert Open(s'.calls, |s'.calls|) == Open(s.calls, |s.calls|);
  }

  /** The step that ends it. */
  lemma {:induction false} ReturnGuarded(s: State, credits: seq<int>, S: set<nat>, L: set<nat>, k: nat, c: Call,
                                         W: nat, r: nat)
    requires Guarded(s, S, L, W, r) && |credits| == |s.credits| && k < |s.calls|
    requires !s.calls[k].phase.Returned? && c.phase.Returned?
    requires SumOver(Share(|credits|, c), |credits|, S) <= if k in L then W else 0
    ensures Guarded(State(credits, s.calls[k := c]), S, L - {k}, W, r)
  {
    var s' := State(credits, s.calls[k := c]);
    var n := |credits|;
    var d, d' := Settled(n, s.calls, |s.calls|), Settled(n, s'.calls, |s'.calls|);
    SettledStep(n, s.calls, k, c);
    hide SumOver, Bound, Captured, Divide, Settled, Share;
    SumOverPointwise(d, Share(n, c), d', n, S);
    assert Open(s'.calls, |s'.calls|) == Open(s.calls, |s.calls|) - {k};
    if k in L {
      assert |L - {k}| == |L| - 1;
      Distribute(W, |L|, 1);
      assert W * 1 == W;
    } else {
      assert L - {k} == L;
    }
  }

  lemma {:induction false} AdvanceGuarded(s: State, S: set<nat>, L: set<nat>, k: nat, W: nat, r: nat)
    requires CallsOk(s) && Limits(s, W, r) && AllBounded(s, W, r) && Exact(s)
    requires Within(S, |s.credits|) && Guarded(s, S, L, W, r) && k < |s.calls|
    ensures exists L': set<nat> :: Guarded(Apply(s, Advance(k)), S, L', W, r)
  {
    var c := s.calls[k];
    var (credits, c') := CallStep(s.credits, c);
    if c.phase.Returned? {
      assert s.calls[k := c'] == s.calls;
      assert Guarded(Apply(s, Advance(k)), S, L, W, r);
    } else {
      var L0 := if Overloaded(s, S, W, r) then L else Open(s.calls, |s.calls|);
      if !Overloaded(s, S, W, r) {
        RoomForAll(s, S, W, r);
      }
      AdvanceFrom(s, S, L0, k, W, r);
    }
  }

  /** A captured call picks in S, or S lies beyond its slice. */
  lemma {:induction false} CapturedPays(n: nat, c: Call, S: set<nat>, divide: int, W: nat)
    requires CallOk(n, c) && c.phase.Subtracting? && |c.slice| <= n && Total(c.slice) <= W
    requires Captured(c, S, divide)
    ensures SumOver(Share(n, c.(phase := Returned)), n, S) <= 0
  {
    hide SumTo, SumOver, Share, Wrap;
    ShareOver(n, c.(phase := Returned), S, W);
  }

  lemma {:induction false} AdvanceFrom(s: State, S: set<nat>, L: set<nat>, k: nat, W: nat, r: nat)
    requires CallsOk(s) && Limits(s, W, r) && AllBounded(s, W, r) && Exact(s)
    requires Within(S, |s.credits|) && Guarded(s, S, L, W, r) && k < |s.calls| && !s.calls[k].phase.Returned?
    requires k in L || Overloaded(s, S, W, r)
    ensures exists L': set<nat> :: Guarded(Apply(s, Advance(k)), S, L', W, r)
  {
    var n, c := |s.credits|, s.calls[k];
    var divide := Divide(n, W, r, |S|);
    var (credits, c') := CallStep(s.credits, c);
    assert k !in L ==> Captured(c, S, divide);
    assert CallOk(n, c) && |c.slice| <= n && Total(c.slice) <= W;
    CallStepOk(s.credits, c);
    assert c'.phase.Returned? ==> c.phase.Subtracting? && c' == c.(phase := Returned);
    assert Apply(s, Advance(k)) == State(credits, s.calls[k := c']);
    hide Captured, Guarded, Divide, CallOk, CallStep, Limits, CallsOk, AllBounded, Exact, Overloaded, SumTo, Share;
    hide Within, Apply;
    if k !in L && !c'.phase.Returned? {
      StaysCaptured(s, S, k, W, r);
    }
    if c'.phase.Returned? {
      ShareOver(n, c', S, W);
      if k !in L {
        CapturedPays(n, c, S, divide, W);
      }
      ReturnGuarded(s, credits, S, L, k, c', W, r);
    } else {
      MoveGuarded(s, credits, S, L, k, c', W, r);
    }
  }

  // ---------- Whole runs ----------

  /** The limits hold after every prefix of the events. */
  ghost predicate Limited(n: nat, events: seq<Event>, W: nat, r: nat)
    requires n > 0
  {
    && Limits(Run(n, events), W, r)
    && (|events| > 0 ==> Limited(n, events[..|events| - 1], W, r))
  }

  /** The sizes for which overlapping calls are proved to stay in 64 bits. */
  ghost predicate Spacious(n: nat, W: nat, r: nat) {
    3 * (r * W) * n < TWO_64
  }

  lemma {:induction false} DivideAboveSentinel(n: nat, W: nat, r: nat, k: nat)
    requires Spacious(n, W, r) && 0 < k < n
    ensures 2 * I64_MIN <= Divide(n, W, r, k)
  {
    var V := 3 * (r * W);
    CapDifference(V, n, k);
    NotNegative(r, W);
    Scaled(V, 2 - n, n - 2 * k);
    Distribute(V, 2, n);
    Distribute(V, n - 2 * k, 1);
    assert V * 1 == V;
  }

  lemma {:induction false} CapDifference(V: nat, n: nat, k: nat)
    requires k > 0
    ensures Cap(V, n, k) - Cap(V, n, k - 1) == V * (n - 2 * k + 1)
  {
    Difference(n, k);
    Distribute(V, k * (n - k), (k - 1) * (n - (k - 1)));
  }

  lemma {:induction false} Difference(n: int, k: int)
    ensures k * (n - k) - (k - 1) * (n - (k - 1)) == n - 2 * k + 1
  {
  }

  lemma {:induction false} InvariantStep(s: State, e: Event, W: nat, r: nat)
    requires CallsOk(s) && Limits(s, W, r) && Limits(Apply(s, e), W, r) && Spacious(|s.credits|, W, r)
    requires Contained(s, W, r) && Exact(s)
    ensures Contained(Apply(s, e), W, r)
  {
    hide Guarded, Exact, Limits, Apply, CallsOk, Spacious, AllBounded;
    var s' := Apply(s, e);
    ContainedIsBounded(s, W, r);
    forall S: set<nat> | Within(S, |s.credits|) && 0 < |S| < |s.credits|
      ensures exists L: set<nat> :: Guarded(s', S, L, W, r)
    {
      var L: set<nat> :| Guarded(s, S, L, W, r);
      StepGuarded(s, e, S, L, W, r);
    }
  }

  lemma {:induction false} StepGuarded(s: State, e: Event, S: set<nat>, L: set<nat>, W: nat, r: nat)
    requires CallsOk(s) && Limits(s, W, r) && Limits(Apply(s, e), W, r) && Spacious(|s.credits|, W, r)
    requires AllBounded(s, W, r) && Exact(s)
    requires Within(S, |s.credits|) && 0 < |S| < |s.credits| && Guarded(s, S, L, W, r)
    ensures exists L': set<nat> :: Guarded(Apply(s, e), S, L', W, r)
  {
    hide Guarded, Exact, Limits, Spacious, AllBounded, CallStep;
    if e.Enter? && |e.slice| > 0 {
      DivideAboveSentinel(|s.credits|, W, r, |S|);
      EnterGuarded(s, e.slice, S, L, W, r);
    } else if e.Advance? && e.k < |s.calls| {
      AdvanceGuarded(s, S, L, e.k, W, r);
    } else {
      assert Apply(s, e) == s;
    }
  }

  /** No settled credit strays further than 3/2 * r * W * (n - 1) from zero. */
  lemma {:induction false} SettledBound(s: State, i: nat, W: nat, r: nat)
    requires CallsOk(s) && AllBounded(s, W, r) && i < |s.credits|
    ensures var d, V := Settled(|s.credits|, s.calls, |s.calls|)[i], 3 * (r * W);
            -(V * (|s.credits| - 1)) <= 2 * d <= V * (|s.credits| - 1)
  {
    var n, d := |s.credits|, Settled(|s.credits|, s.calls, |s.calls|);
    hide SumOver, SumTo, CallOk, Settled;
    SettledSum(n, s.calls, |s.calls|);
    var all := AllPositions(n);
    var others := all - {i};
    assert all == others + {i};
    assert |others| == n - 1;
    SumOverAll(d, n, all);
    SumOverInsert(d, n, others, i);
    SumOverSingleton(d, n, i);
    assert Within({i}, n) && Within(others, n) && |{i}| == 1;
    assert 2 * Hold(s, {i}) <= Bound(n, W, r, 1) && 2 * Hold(s, others) <= Bound(n, W, r, n - 1);
    assert 1 * (n - 1) == n - 1 && (n - 1) * (n - (n - 1)) == n - 1;
  }

  lemma {:induction false} BoundedFits(s: State, W: nat, r: nat)
    requires CallsOk(s) && Limits(s, W, r) && AllBounded(s, W, r) && Spacious(|s.credits|, W, r)
    ensures DuesFit(s)
  {
    hide CallsOk, Limits, AllBounded, Settled, Due;
    var n, V := |s.credits|, 3 * (r * W);
    forall i | 0 <= i < n ensures InI64(Due(s.calls, |s.calls|, i)) {
      SettledBound(s, i, W, r);
      DueNearSettled(s, i, W, r);
      NotNegative(r, W);
      Distribute(V, n, 1);
      assert V * 1 == V;
    }
  }

  /** At every moment of every such run all sets of positions are within their bounds and every credit is exact. */
  lemma {:induction false} BoundedInterleaving(n: nat, events: seq<Event>, W: nat, r: nat)
    requires n > 0 && Spacious(n, W, r) && Limited(n, events, W, r)
    ensures Contained(Run(n, events), W, r) && DuesFit(Run(n, events)) && Exact(Run(n, events))
  {
    hide Contained, Limits, Apply, DuesFit, Spacious, CallsOk, AllBounded;
    if |events| == 0 {
      NothingOpen(n, W, r);
    } else {
      var before := events[..|events| - 1];
      BoundedInterleaving(n, before, W, r);
      InvariantStep(Run(n, before), events[|events| - 1], W, r);
    }
    ContainedIsBounded(Run(n, events), W, r);
    BoundedFits(Run(n, events), W, r);
    FittingLedgerIsExact(n, events);
  }

  lemma {:induction false} NothingOpen(n: nat, W: nat, r: nat)
    requires n > 0
    ensures Contained(Initial(n), W, r)
  {
    var s := Initial(n);
    forall S: set<nat> | Within(S, n) && 0 < |S| < n ensures exists L: set<nat> :: Guarded(s, S, L, W, r) {
      assert Settled(n, [], 0) == Zeros(n) by {
        forall i | 0 <= i < n ensures Settled(n, [], 0)[i] == 0 {
          assert Settled(n, [], 0)[i] == Tally([], 0, Kept(i));
        }
      }
      ZerosSumOver(n, n, S);
      CapNotNegative(3 * (r * W), n, |S|);
      assert W * 0 == 0;
      assert Guarded(s, S, {}, W, r);
    }
  }

  /** So no credit ever strays further than 3/2 * r * W * n from zero, and the ledger holds with no modulus. */
  lemma {:induction false} ConcurrentCreditBound(n: nat, events: seq<Event>, W: nat, r: nat, i: nat)
    requires i < n && Spacious(n, W, r) && Limited(n, events, W, r)
    ensures var s := Run(n, events);
            && s.credits[i] == Due(s.calls, |s.calls|, i)
            && -(3 * (r * W) * n) <= 2 * s.credits[i] <= 3 * (r * W) * n
  {
    hide Run, Due, CallsOk, Contained, AllBounded, DuesFit, Settled;
    var s, V := Run(n, events), 3 * (r * W);
    BoundedInterleaving(n, events, W, r);
    ContainedIsBounded(s, W, r);
    SettledBound(s, i, W, r);
    DueNearSettled(s, i, W, r);
    NotNegative(r, W);
    Distribute(V, n, 1);
    assert V * 1 == V;
  }

  /** How far the picks of position i are ahead of its share of the calls that have returned, times W. */
  ghost function ConcurrentLead(w: seq<nat>, calls: seq<Call>, m: nat, i: nat): int
    requires i < |w| && m <= |calls|
  {
    Total(w) * Tally(calls, m, Chose(i)) - w[i] * Tally(calls, m, Ended())
  }

  ghost function Ended(): Call -> int {
    (c: Call) => if c.phase.Returned? then 1 else 0
  }

  lemma {:induction false} KeptByOne(w: seq<nat>, n: nat, c: Call, i: nat)
    requires i < |w| && c.slice == w && CallOk(n, c)
    ensures Kept(i)(c) == (if Ended()(c) == 1 then w[i] else 0) - (if Chose(i)(c) == 1 then Total(w) else 0)
    ensures 0 <= Ended()(c) <= 1 && 0 <= Chose(i)(c) <= 1
  {
    hide SumTo;
    assert c.phase.Returned? ==> Kept(i)(c) == Gained(i)(c);
    assert c.phase.Returned? ==> Gained(i)(c) == w[i] - if c.bestIndex == i then Total(w) else 0;
  }

  lemma {:induction false} LeadIsSettled(w: seq<nat>, n: nat, calls: seq<Call>, m: nat, i: nat)
    requires m <= |calls| && i < |w| && AllOn(w, calls) && forall k | 0 <= k < |calls| :: CallOk(n, calls[k])
    ensures ConcurrentLead(w, calls, m, i) == -Tally(calls, m, Kept(i))
  {
    if m == 0 {
      assert w[i] * 0 == 0 && Total(w) * 0 == 0;
    } else {
      hide SumTo, Kept, Chose, Ended, CallOk;
      var c := calls[m - 1];
      LeadIsSettled(w, n, calls, m - 1, i);
      KeptByOne(w, n, c, i);
      UnitStep(Total(w), Tally(calls, m - 1, Chose(i)), Chose(i)(c));
      UnitStep(w[i], Tally(calls, m - 1, Ended()), Ended()(c));
    }
  }

  /**
   Fairness under concurrency: when all calls are on one slice and at most r are in flight, the picks of every
   backend stay within 3/2 * r * (n - 1) of its proportional share, at every moment of every interleaving.
   */
  lemma {:induction false} ConcurrentFairness(w: seq<nat>, W: nat, events: seq<Event>, r: nat, i: nat)
    requires i < |w| && W == Total(w) && Spacious(|w|, W, r) && Limited(|w|, events, W, r)
    requires AllOn(w, Run(|w|, events).calls)
    ensures var s := Run(|w|, events);
            var V := 3 * (r * W);
            -(V * (|w| - 1)) <= 2 * ConcurrentLead(w, s.calls, |s.calls|, i) <= V * (|w| - 1)
  {
    hide Run, SumTo, Tally, Contained, AllBounded, DuesFit, CallOk, ConcurrentLead;
    var s := Run(|w|, events);
    BoundedInterleaving(|w|, events, W, r);
    ContainedIsBounded(s, W, r);
    SettledBound(s, i, W, r);
    LeadIsSettled(w, |w|, s.calls, |s.calls|, i);
  }
}
