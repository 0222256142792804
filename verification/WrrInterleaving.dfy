/**
 Many threads inside WeightedRoundRobin::select at once, each on the slice it was given. Each atomic operation on
 a credit is one step; any call may take the next step. The ledger survives every interleaving, and a call that
 is never interrupted performs exactly the sequential selection.
 */
module WrrInterleaving {
  import opened Sums
  import opened SmoothWrr
  import opened SmoothWrrRange
  import opened WeightedRoundRobins
  import opened Words

  /**
   Where a call stands: before fetch_add, before the first load, before the second load, before fetch_sub, or ended.
   A slice longer than the credits ends in the index panic.
   */
  datatype Phase = Adding | Comparing | Reloading | Subtracting | Returned | Panicking

  /** One call: its slice and its local variables; passed counts the positions it has added its weights to. */
  datatype Call = Call(slice: seq<nat>, phase: Phase, passed: nat, total: int, bestIndex: nat, bestCredit: int)

  datatype State = State(credits: seq<int>, calls: seq<Call>)

  /** A call enters with the slice of its request, or call k takes its next step. */
  datatype Event = Enter(slice: seq<nat>) | Advance(k: nat)

  function Entered(w: seq<nat>): Call {
    Call(w, Adding, 0, 0, 0, I64_MIN)
  }

  function NextPhase(passed: nat, n: nat): Phase {
    if passed < n then Adding else Subtracting
  }

  ghost predicate CallOk(n: nat, c: Call) {
    && c.bestIndex < |c.slice| && c.bestIndex < n && c.passed <= |c.slice| && c.passed <= n
    && (c.phase.Adding? ==> c.passed < |c.slice|)
    && (c.phase.Comparing? || c.phase.Reloading? ==> c.passed > 0)
    && (c.phase.Subtracting? || c.phase.Returned? ==> c.passed == |c.slice|)
    && (c.phase.Panicking? ==> c.passed == n < |c.slice|)
    && c.total == Wrap(SumTo(c.slice, c.passed))
  }

  /** The effect of one atomic step of a call on the credits and on its own locals. */
  function CallStep(credits: seq<int>, c: Call): (r: (seq<int>, Call))
    requires CallOk(|credits|, c)
    ensures |r.0| == |credits|
  {
    match c.phase
    case Adding =>
      var i := c.passed;
      if i < |credits| then
        (credits[i := Wrap(credits[i] + c.slice[i])],
         c.(phase := Comparing, passed := i + 1, total := Wrap(c.total + c.slice[i])))
      else (credits, c.(phase := Panicking))
    case Comparing =>
      if credits[c.passed - 1] > c.bestCredit then (credits, c.(phase := Reloading))
      else (credits, c.(phase := NextPhase(c.passed, |c.slice|)))
    case Reloading =>
      (credits, c.(phase := NextPhase(c.passed, |c.slice|),
                   bestIndex := c.passed - 1, bestCredit := credits[c.passed - 1]))
    case Subtracting =>
      (credits[c.bestIndex := Wrap(credits[c.bestIndex] - c.total)], c.(phase := Returned))
    case Returned => (credits, c)
    case Panicking => (credits, c)
  }

  ghost predicate CallsOk(s: State) {
    && |s.credits| > 0
    && (forall i | 0 <= i < |s.credits| :: InI64(s.credits[i]))
    && forall k | 0 <= k < |s.calls| :: CallOk(|s.credits|, s.calls[k])
  }

  /** One event. A call on an empty slice touches nothing, and so does a step of a call that has not entered. */
  ghost function Apply(s: State, e: Event): (s': State)
    requires CallsOk(s)
    ensures CallsOk(s') && |s'.credits| == |s.credits|
  {
    match e
    case Enter(w) => if |w| > 0 then s.(calls := s.calls + [Entered(w)]) else s
    case Advance(k) =>
      if k < |s.calls| then
        var (credits, c) := CallStep(s.credits, s.calls[k]);
        CallStepOk(s.credits, s.calls[k]);
        State(credits, s.calls[k := c])
      else s
  }

  lemma {:induction false} CallStepOk(credits: seq<int>, c: Call)
    requires CallOk(|credits|, c)
    requires forall i | 0 <= i < |credits| :: InI64(credits[i])
    ensures CallOk(|credits|, CallStep(credits, c).1)
    ensures forall i | 0 <= i < |credits| :: InI64(CallStep(credits, c).0[i])
  {
    if c.phase.Adding? {
      WrapAbsorbs(SumTo(c.slice, c.passed), c.slice[c.passed]);
    }
  }

  ghost function Initial(n: nat): State {
    State(Zeros(n), [])
  }

  /** The state after any sequence of events, that is, after any interleaving of any number of calls. */
  ghost function Run(n: nat, events: seq<Event>): (s: State)
    requires n > 0
    ensures CallsOk(s) && |s.credits| == n
  {
    if |events| == 0 then Initial(n)
    else Apply(Run(n, events[..|events| - 1]), events[|events| - 1])
  }

  // ---------- Adding up over the calls ----------

  ghost function Tally(calls: seq<Call>, m: nat, f: Call -> int): int
    requires m <= |calls|
  {
    if m == 0 then 0 else Tally(calls, m - 1, f) + f(calls[m - 1])
  }

  lemma {:induction false} TallyUpdate(calls: seq<Call>, m: nat, f: Call -> int, k: nat, c: Call)
    requires m <= |calls| && k < |calls|
    ensures k < m ==> Tally(calls[k := c], m, f) == Tally(calls, m, f) + f(c) - f(calls[k])
    ensures m <= k ==> Tally(calls[k := c], m, f) == Tally(calls, m, f)
  {
    if m > 0 {
      TallyUpdate(calls, m - 1, f, k, c);
    }
  }

  lemma {:induction false} TallyAppend(calls: seq<Call>, m: nat, f: Call -> int, c: Call)
    requires m <= |calls|
    ensures Tally(calls + [c], m, f) == Tally(calls, m, f)
    ensures m == |calls| ==> Tally(calls + [c], m + 1, f) == Tally(calls, m, f) + f(c)
  {
    if m > 0 {
      TallyAppend(calls, m - 1, f, c);
    }
    assert (calls + [c])[|calls|] == c;
  }

  /** What a call has done to position i: its weight once it has passed, less its total once it has picked i. */
  ghost function Gained(i: nat): Call -> int {
    (c: Call) => (if i < c.passed && i < |c.slice| then c.slice[i] else 0)
               - (if c.phase.Returned? && c.bestIndex == i then Total(c.slice) else 0)
  }

  /** What a call has added so far and not yet taken back. */
  ghost function Outstanding(): Call -> int {
    (c: Call) => if c.phase.Returned? || c.passed > |c.slice| then 0 else SumTo(c.slice, c.passed)
  }

  /** What position i would hold without wrapping, by the first m calls. */
  ghost function Due(calls: seq<Call>, m: nat, i: nat): int
    requires m <= |calls|
  {
    Tally(calls, m, Gained(i))
  }

  // ---------- The ledger of every interleaving ----------

  ghost predicate InLedger(s: State) {
    forall i | 0 <= i < |s.credits| :: s.credits[i] == Wrap(Due(s.calls, |s.calls|, i))
  }

  /** Every credit is, modulo 2^64, the weights of the calls past it less the totals of the calls that picked it. */
  lemma {:induction false} InterleavedLedger(n: nat, events: seq<Event>)
    requires n > 0
    ensures InLedger(Run(n, events))
  {
    if |events| > 0 {
      hide Due, Apply, CallsOk;
      InterleavedLedger(n, events[..|events| - 1]);
      LedgerKept(Run(n, events[..|events| - 1]), events[|events| - 1]);
    }
  }

  lemma {:induction false} LedgerKept(s: State, e: Event)
    requires CallsOk(s) && InLedger(s)
    ensures InLedger(Apply(s, e))
  {
    var s' := Apply(s, e);
    forall i | 0 <= i < |s.credits| ensures s'.credits[i] == Wrap(Due(s'.calls, |s'.calls|, i)) {
      if e.Enter? && |e.slice| > 0 {
        TallyAppend(s.calls, |s.calls|, Gained(i), Entered(e.slice));
      } else if e.Advance? && e.k < |s.calls| {
        CallStepInLedger(s, e.k, i);
      }
    }
  }

  /** A step changes the credit of position i by what its call gains there, and wraps it. */
  lemma {:induction false} StepGain(credits: seq<int>, c: Call, i: nat)
    requires CallOk(|credits|, c) && i < |credits| && InI64(credits[i])
    ensures var (after, c') := CallStep(credits, c);
            after[i] == Wrap(credits[i] + (Gained(i)(c') - Gained(i)(c)))
  {
    assert Wrap(credits[i]) == credits[i];
    hide SumTo, Wrap;
    if c.phase.Subtracting? && c.bestIndex == i {
      WrapAbsorbs(credits[i], Total(c.slice));
    }
  }

  lemma {:induction false} CallStepInLedger(s: State, k: nat, i: nat)
    requires CallsOk(s) && InLedger(s) && k < |s.calls| && i < |s.credits|
    ensures var r := CallStep(s.credits, s.calls[k]);
            r.0[i] == Wrap(Due(s.calls[k := r.1], |s.calls|, i))
  {
    var c := s.calls[k];
    assert CallOk(|s.credits|, c);
    assert s.credits[i] == Wrap(Due(s.calls, |s.calls|, i));
    hide Tally, Wrap, CallStep, Gained, CallOk;
    var c' := CallStep(s.credits, c).1;
    StepGain(s.credits, c, i);
    TallyUpdate(s.calls, |s.calls|, Gained(i), k, c');
    WrapAbsorbs(Due(s.calls, |s.calls|, i), Gained(i)(c') - Gained(i)(c));
  }

  // ---------- All calls on one slice ----------

  /** 1 for a call that has added its weight at position i. */
  ghost function Passed(i: nat): Call -> int {
    (c: Call) => if c.passed > i then 1 else 0
  }

  /** 1 for a call that has returned position i. */
  ghost function Chose(i: nat): Call -> int {
    (c: Call) => if c.phase.Returned? && c.bestIndex == i then 1 else 0
  }

  ghost predicate AllOn(w: seq<nat>, calls: seq<Call>) {
    forall k | 0 <= k < |calls| :: calls[k].slice == w
  }

  lemma {:induction false} DueOnOneSlice(w: seq<nat>, calls: seq<Call>, m: nat, i: nat)
    requires m <= |calls| && i < |w| && AllOn(w, calls)
    ensures Due(calls, m, i) == w[i] * Tally(calls, m, Passed(i)) - Total(w) * Tally(calls, m, Chose(i))
  {
    if m == 0 {
      assert w[i] * 0 == 0 && Total(w) * 0 == 0;
    } else {
      DueOnOneSlice(w, calls, m - 1, i);
      UnitStep(w[i], Tally(calls, m - 1, Passed(i)), Passed(i)(calls[m - 1]));
      UnitStep(Total(w), Tally(calls, m - 1, Chose(i)), Chose(i)(calls[m - 1]));
    }
  }

  lemma {:induction false} UnitStep(m: int, x: int, d: int)
    ensures d == 0 ==> m * (x + d) == m * x
    ensures d == 1 ==> m * (x + d) == m * x + m
  {
  }

  /** When all calls have the same slice a credit is its weight times the calls past it less W times its picks. */
  lemma {:induction false} OneSliceLedger(w: seq<nat>, n: nat, events: seq<Event>, i: nat)
    requires n > 0 && i < |w| && i < n && AllOn(w, Run(n, events).calls)
    ensures var s := Run(n, events);
            var m := |s.calls|;
            s.credits[i] == Wrap(w[i] * Tally(s.calls, m, Passed(i)) - Total(w) * Tally(s.calls, m, Chose(i)))
  {
    hide Run, SumTo, Wrap, Tally;
    InterleavedLedger(n, events);
    DueOnOneSlice(w, Run(n, events).calls, |Run(n, events).calls|, i);
  }

  // ---------- Conservation ----------

  ghost function Dues(n: nat, calls: seq<Call>, m: nat): (d: seq<int>)
    requires m <= |calls|
    ensures |d| == n && forall i | 0 <= i < n :: d[i] == Due(calls, m, i)
  {
    seq(n, i requires 0 <= i < n => Due(calls, m, i))
  }

  /** What one call contributes to each position. */
  ghost function Share(n: nat, c: Call): (d: seq<int>)
    ensures |d| == n && forall i | 0 <= i < n :: d[i] == Gained(i)(c)
  {
    seq(n, i requires 0 <= i < n => Gained(i)(c))
  }

  lemma {:induction false} ShareSum(n: nat, c: Call)
    requires CallOk(n, c)
    ensures SumTo(Share(n, c), n) == Outstanding()(c)
  {
    var earned := seq(n, i requires 0 <= i < n => if i < c.passed then c.slice[i] else 0);
    EarnedSum(c.slice, earned, c.passed, n);
    if c.phase.Returned? {
      assert Share(n, c) == earned[c.bestIndex := earned[c.bestIndex] - Total(c.slice)];
      SumToLowered(earned, n, c.bestIndex, Total(c.slice));
    } else {
      assert Share(n, c) == earned;
    }
  }

  lemma {:induction false} EarnedSum(w: seq<nat>, earned: seq<int>, passed: nat, m: nat)
    requires m <= |earned| && passed <= |w|
    requires forall i | 0 <= i < |earned| :: earned[i] == if i < passed then w[i] else 0
    ensures SumTo(earned, m) == SumTo(w, if m <= passed then m else passed)
  {
    if m > 0 {
      EarnedSum(w, earned, passed, m - 1);
    }
  }

  lemma {:induction false} DuesSum(n: nat, calls: seq<Call>, m: nat)
    requires m <= |calls| && forall k | 0 <= k < |calls| :: CallOk(n, calls[k])
    ensures SumTo(Dues(n, calls, m), n) == Tally(calls, m, Outstanding())
  {
    var dues := Dues(n, calls, m);
    if m == 0 {
      forall i | 0 <= i < n ensures dues[i] == 0 {
        assert dues[i] == Due(calls, 0, i);
      }
      SumToAtMost(dues, n, 0);
      SumToAtLeast(dues, n, 0);
    } else {
      hide CallOk, SumTo;
      DuesSum(n, calls, m - 1);
      ShareSum(n, calls[m - 1]);
      forall i | 0 <= i < n ensures dues[i] == Dues(n, calls, m - 1)[i] + Share(n, calls[m - 1])[i] {
        assert dues[i] == Due(calls, m, i) == Due(calls, m - 1, i) + Gained(i)(calls[m - 1]);
      }
      SumToPointwise(Dues(n, calls, m - 1), Share(n, calls[m - 1]), dues, n);
    }
  }

  /** The credits sum, modulo 2^64, to what the unfinished calls have added and not yet taken back. */
  lemma {:induction false} InterleavedConservation(n: nat, events: seq<Event>)
    requires n > 0
    ensures var s := Run(n, events);
            Wrap(SumTo(s.credits, n)) == Wrap(Tally(s.calls, |s.calls|, Outstanding()))
  {
    var s := Run(n, events);
    hide Run;
    InterleavedLedger(n, events);
    WrappedSum(s.credits, Dues(n, s.calls, |s.calls|), n);
    DuesSum(n, s.calls, |s.calls|);
  }

  // ---------- Exactness ----------

  /** No position is due more than 64 bits hold. */
  ghost predicate DuesFit(s: State) {
    forall i | 0 <= i < |s.credits| :: InI64(Due(s.calls, |s.calls|, i))
  }

  /** Then ledger and sum hold with no modulus. */
  lemma {:induction false} FittingLedgerIsExact(n: nat, events: seq<Event>)
    requires n > 0 && DuesFit(Run(n, events))
    ensures var s := Run(n, events);
            && (forall i | 0 <= i < n :: s.credits[i] == Due(s.calls, |s.calls|, i))
            && SumTo(s.credits, n) == Tally(s.calls, |s.calls|, Outstanding())
  {
    var s := Run(n, events);
    hide Run, Due;
    InterleavedLedger(n, events);
    DuesSum(n, s.calls, |s.calls|);
    SumToSame(s.credits, Dues(n, s.calls, |s.calls|), n);
  }

  lemma {:induction false} GainedWithinTotal(c: Call, i: nat)
    ensures -Total(c.slice) <= Gained(i)(c) <= Total(c.slice)
  {
    SumToAtLeast(c.slice, |c.slice|, 0);
    if i < |c.slice| {
      EntryAtMostSum(c.slice, |c.slice|, i);
    }
  }

  /** No call is between its entry and its return. */
  ghost predicate Quiescent(s: State) {
    forall k | 0 <= k < |s.calls| :: s.calls[k].phase.Returned?
  }

  lemma {:induction false} TallyConstant(calls: seq<Call>, m: nat, f: Call -> int, v: int)
    requires m <= |calls| && forall k | 0 <= k < m :: f(calls[k]) == v
    ensures Tally(calls, m, f) == m * v
  {
    if m > 0 {
      TallyConstant(calls, m - 1, f, v);
    }
  }

  /** With no call in flight the credits sum to zero modulo 2^64, and to exactly zero when the dues fit. */
  lemma {:induction false} QuiescentSum(n: nat, events: seq<Event>)
    requires n > 0 && Quiescent(Run(n, events))
    ensures var s := Run(n, events);
            Wrap(SumTo(s.credits, n)) == 0 && (DuesFit(s) ==> SumTo(s.credits, n) == 0)
  {
    var s := Run(n, events);
    TallyConstant(s.calls, |s.calls|, Outstanding(), 0);
    hide Run, SumTo, Tally, Due;
    InterleavedConservation(n, events);
    if DuesFit(s) {
      FittingLedgerIsExact(n, events);
    }
  }

  // ---------- A call that is never interrupted ----------

  /** The same call takes m steps in a row. */
  ghost function Solo(s: State, k: nat, m: nat): (s': State)
    requires CallsOk(s)
    ensures CallsOk(s') && |s'.credits| == |s.credits|
  {
    if m == 0 then s else Apply(Solo(s, k, m - 1), Advance(k))
  }

  /** The credits and locals of a lone call that has finished the loop body for the first i positions. */
  ghost predicate LoopedTo(w: seq<nat>, start: seq<int>, credits: seq<int>, c: Call, i: nat)
    requires i <= |w| <= |start|
  {
    && credits == WrappedAdd(start, w[..i])
    && c.slice == w && c.phase == NextPhase(i, |w|) && c.passed == i && c.total == WrappedTotal(w, i)
    && Scanned(credits, i, c.bestIndex, c.bestCredit)
  }

  ghost predicate SoloAt(w: seq<nat>, s: State, s': State, i: nat)
    requires i <= |w| <= |s.credits|
  {
    && |s'.calls| == |s.calls| + 1
    && s'.calls == s.calls + [s'.calls[|s.calls|]]
    && LoopedTo(w, s.credits, s'.credits, s'.calls[|s.calls|], i)
  }

  lemma {:induction false} ApplyLast(calls: seq<Call>, credits: seq<int>, c: Call)
    requires CallOk(|credits|, c) && CallsOk(State(credits, calls + [c]))
    ensures var r := CallStep(credits, c);
            Apply(State(credits, calls + [c]), Advance(|calls|)) == State(r.0, calls + [r.1])
  {
    assert (calls + [c])[|calls|] == c;
  }

  lemma {:induction false} SoloOne(s: State, k: nat)
    requires CallsOk(s)
    ensures Solo(s, k, 1) == Apply(s, Advance(k))
  {
    assert Solo(s, k, 0) == s;
  }

  /** One pass of the loop body takes two or three steps. */
  lemma {:induction false} SoloRound(w: seq<nat>, s: State, s0: State, i: nat) returns (j: nat)
    requires CallsOk(s) && CallsOk(s0) && i < |w| <= |s.credits| && SoloAt(w, s, s0, i)
    ensures j <= 3 && SoloAt(w, s, Solo(s0, |s.calls|, j), i + 1)
  {
    hide Apply, Scanned, WrappedAdd, SumTo;
    var k := |s.calls|;
    var c := s0.calls[k];
    assert s0 == State(s0.credits, s.calls + [c]);
    AddStep(s.credits, w, i);
    ApplyLast(s.calls, s0.credits, c);
    var s1 := Solo(s0, k, 1);
    var c1 := c.(phase := Comparing, passed := i + 1, total := WrappedTotal(w, i + 1));
    SoloOne(s0, k);
    assert CallStep(s0.credits, c) == (WrappedAdd(s.credits, w[..i + 1]), c1);
    assert s1.calls[k] == c1;
    assert s1 == State(WrappedAdd(s.credits, w[..i + 1]), s.calls + [c1]);
    ScanStep(s0.credits, i, c.bestIndex, c.bestCredit, s1.credits[i]);
    ApplyLast(s.calls, s1.credits, c1);
    j := 2;
    if s1.credits[i] > c1.bestCredit {
      ApplyLast(s.calls, s1.credits, c1.(phase := Reloading));
      j := 3;
    }
  }

  lemma {:induction false} SoloCompose(s: State, k: nat, m: nat, j: nat)
    requires CallsOk(s)
    ensures Solo(s, k, m + j) == Solo(Solo(s, k, m), k, j)
  {
    hide Apply;
    if j > 0 {
      SoloCompose(s, k, m, j - 1);
      assert m + j - 1 == m + (j - 1);
    }
  }

  lemma {:induction false} SoloStart(w: seq<nat>, s: State)
    requires CallsOk(s) && 0 < |w| <= |s.credits|
    ensures SoloAt(w, s, Apply(s, Enter(w)), 0)
  {
    hide CallOk;
    AddNothing(s.credits, w);
  }

  lemma {:induction false} SoloScan(w: seq<nat>, s: State, i: nat) returns (m: nat)
    requires CallsOk(s) && i <= |w| && 0 < |w| <= |s.credits|
    ensures m <= 3 * i && SoloAt(w, s, Solo(Apply(s, Enter(w)), |s.calls|, m), i)
  {
    hide SoloAt, Apply, CallsOk;
    var k, entered := |s.calls|, Apply(s, Enter(w));
    if i == 0 {
      m := 0;
      SoloStart(w, s);
    } else {
      var before := SoloScan(w, s, i - 1);
      var j := SoloRound(w, s, Solo(entered, k, before), i - 1);
      SoloCompose(entered, k, before, j);
      m := before + j;
    }
  }

  /** A call that has returned stays as it is. */
  lemma {:induction false} SoloIdle(calls: seq<Call>, credits: seq<int>, c: Call, m: nat)
    requires CallOk(|credits|, c) && CallsOk(State(credits, calls + [c])) && c.phase.Returned?
    ensures Solo(State(credits, calls + [c]), |calls|, m) == State(credits, calls + [c])
  {
    hide Apply, CallsOk;
    if m > 0 {
      SoloIdle(calls, credits, c, m - 1);
      ApplyLast(calls, credits, c);
    }
  }

  /** From any state, a call run on its own for 3n + 1 steps is the 64-bit selection of the strategy object. */
  lemma {:induction false} SoloCallSelects(w: seq<nat>, s: State)
    requires CallsOk(s) && 0 < |w| <= |s.credits|
    ensures var s' := Solo(Apply(s, Enter(w)), |s.calls|, 3 * |w| + 1);
            && s'.credits == WrappedSelect(s.credits, w)
            && |s'.calls| == |s.calls| + 1 && s'.calls[..|s.calls|] == s.calls
            && s'.calls[|s.calls|].phase.Returned?
            && s'.calls[|s.calls|].bestIndex == WrappedChoice(s.credits, w)
  {
    hide Apply, FirstMax;
    var k, entered := |s.calls|, Apply(s, Enter(w));
    var m := SoloScan(w, s, |w|);
    var scanned := Solo(entered, k, m);
    var c := scanned.calls[k];
    assert w[..|w|] == w;
    FirstMaxIsUnique(scanned.credits, |w|, c.bestIndex, WrappedChoice(s.credits, w));
    ApplyLast(s.calls, scanned.credits, c);
    assert scanned == State(scanned.credits, s.calls + [c]);
    SoloOne(scanned, k);
    var done := Solo(scanned, k, 1);
    assert CallStep(scanned.credits, c) == (WrappedSelect(s.credits, w), c.(phase := Returned));
    assert done == State(WrappedSelect(s.credits, w), s.calls + [c.(phase := Returned)]);
    SoloIdle(s.calls, done.credits, c.(phase := Returned), 3 * |w| - m);
    SoloCompose(entered, k, m, 1);
    SoloCompose(entered, k, m + 1, 3 * |w| - m);
  }
}
