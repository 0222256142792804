/**
 The health state machine of one backend: consecutive counters, thresholds and the flag, and what the
 flag and its flips mean in terms of the whole history of check results.
 */
module HealthHistory {
  import opened Arithmetic
  import opened Words

  datatype CheckResult = Healthy | Unhealthy

  /** Consecutive results; both counters are 32-bit and wrap. */
  datatype BackendStatus = BackendStatus(consecutiveSuccesses: nat, consecutiveFailures: nat) {
    function Update(result: CheckResult): BackendStatus {
      match result
      case Healthy => BackendStatus((consecutiveSuccesses + 1) % TWO_32, 0)
      case Unhealthy => BackendStatus(0, (consecutiveFailures + 1) % TWO_32)
    }
  }

  const FRESH := BackendStatus(0, 0)

  datatype Thresholds = Thresholds(healthy: nat, unhealthy: nat)

  /** Configured values are 32-bit. Zero is accepted by the configuration and treated separately below. */
  ghost predicate Positive(cfg: Thresholds) {
    1 <= cfg.healthy < TWO_32 && 1 <= cfg.unhealthy < TWO_32
  }

  datatype Monitored = Monitored(status: BackendStatus, flag: bool)

  /** The failure test: enough failures in a row, and the flag is up. */
  predicate TakesDown(m: Monitored, r: CheckResult, cfg: Thresholds) {
    m.flag && m.status.Update(r).consecutiveFailures >= cfg.unhealthy
  }

  /** The success test that follows it, on the flag as the failure test left it. */
  predicate BringsUp(m: Monitored, r: CheckResult, cfg: Thresholds) {
    !(m.flag && !TakesDown(m, r, cfg)) && m.status.Update(r).consecutiveSuccesses >= cfg.healthy
  }

  /** One result: update the counters, then the failure test, then the success test. */
  function Observe(m: Monitored, r: CheckResult, cfg: Thresholds): Monitored {
    Monitored(m.status.Update(r), BringsUp(m, r, cfg) || (m.flag && !TakesDown(m, r, cfg)))
  }

  /** A backend starts healthy; its state after a history of results, oldest first. */
  function Replay(h: seq<CheckResult>, cfg: Thresholds): Monitored {
    if |h| == 0 then Monitored(FRESH, true)
    else Observe(Replay(h[..|h| - 1], cfg), h[|h| - 1], cfg)
  }

  /** The number of results equal to r at the end of the history. */
  function TrailingRun(h: seq<CheckResult>, r: CheckResult): (n: nat)
    ensures n <= |h|
  {
    if |h| == 0 || h[|h| - 1] != r then 0 else TrailingRun(h[..|h| - 1], r) + 1
  }

  /** TrailingRun counts what its name says: the last n results equal r and the one before does not. */
  lemma {:induction false} TrailingRunIsMaximal(h: seq<CheckResult>, r: CheckResult)
    ensures forall i | |h| - TrailingRun(h, r) <= i < |h| :: h[i] == r
    ensures TrailingRun(h, r) < |h| ==> h[|h| - TrailingRun(h, r) - 1] != r
  {
    if |h| > 0 && h[|h| - 1] == r {
      TrailingRunIsMaximal(h[..|h| - 1], r);
    }
  }

  /** The counters are the lengths of the trailing runs, as far as 32 bits can tell. */
  lemma {:induction false} CountersAreTrailingRuns(h: seq<CheckResult>, cfg: Thresholds)
    ensures Replay(h, cfg).status.consecutiveSuccesses == TrailingRun(h, Healthy) % TWO_32
    ensures Replay(h, cfg).status.consecutiveFailures == TrailingRun(h, Unhealthy) % TWO_32
  {
    if |h| > 0 {
      CountersAreTrailingRuns(h[..|h| - 1], cfg);
      RemainderShift(TrailingRun(h[..|h| - 1], Healthy), TWO_32, 1);
      RemainderShift(TrailingRun(h[..|h| - 1], Unhealthy), TWO_32, 1);
    }
  }

  /** The comparison of a wrapped counter with a threshold, while the run before it was below the threshold. */
  lemma {:induction false} BelowThreshold(run: nat, threshold: nat)
    requires run < threshold < TWO_32
    ensures (run % TWO_32 + 1) % TWO_32 == run + 1
  {
  }

  /** One step of the flag in terms of true run lengths, given what the flag before says about the runs. */
  lemma {:induction false} FlagStepFrom(h: seq<CheckResult>, cfg: Thresholds)
    requires Positive(cfg) && |h| > 0
    requires var g := h[..|h| - 1];
             if Replay(g, cfg).flag then TrailingRun(g, Unhealthy) < cfg.unhealthy
             else TrailingRun(g, Healthy) < cfg.healthy
    ensures Replay(h, cfg).flag <==>
      (Replay(h[..|h| - 1], cfg).flag && TrailingRun(h, Unhealthy) < cfg.unhealthy)
      || TrailingRun(h, Healthy) >= cfg.healthy
  {
    var g := h[..|h| - 1];
    var m := Replay(g, cfg);
    CountersAreTrailingRuns(g, cfg);
    assert Replay(h, cfg) == Observe(m, h[|h| - 1], cfg);
    if m.flag {
      BelowThreshold(TrailingRun(g, Unhealthy), cfg.unhealthy);
      if h[|h| - 1].Healthy? {
        assert TrailingRun(h, Unhealthy) == 0;
      }
    } else {
      BelowThreshold(TrailingRun(g, Healthy), cfg.healthy);
    }
  }

  /** A flag that stands has its opposing run below the threshold. */
  lemma {:induction false} FlagBoundsRun(h: seq<CheckResult>, cfg: Thresholds)
    requires Positive(cfg)
    ensures if Replay(h, cfg).flag then TrailingRun(h, Unhealthy) < cfg.unhealthy
            else TrailingRun(h, Healthy) < cfg.healthy
  {
    if |h| > 0 {
      FlagBoundsRun(h[..|h| - 1], cfg);
      FlagStepFrom(h, cfg);
      hide Replay;
    }
  }

  /** One step of the flag in terms of true run lengths: the wrap of the counters is never seen. */
  lemma {:induction false} FlagStep(h: seq<CheckResult>, cfg: Thresholds)
    requires Positive(cfg) && |h| > 0
    ensures Replay(h, cfg).flag <==>
      (Replay(h[..|h| - 1], cfg).flag && TrailingRun(h, Unhealthy) < cfg.unhealthy)
      || TrailingRun(h, Healthy) >= cfg.healthy
  {
    hide Replay, TrailingRun;
    FlagBoundsRun(h[..|h| - 1], cfg);
    FlagStepFrom(h, cfg);
  }

  // ---------- What the flag means ----------

  /** Some prefix of length p ends in enough failures, and no longer prefix ends in enough successes. */
  ghost predicate DownSince(h: seq<CheckResult>, cfg: Thresholds, p: nat)
    requires p <= |h|
  {
    && TrailingRun(h[..p], Unhealthy) >= cfg.unhealthy
    && forall q | p < q <= |h| :: TrailingRun(h[..q], Healthy) < cfg.healthy
  }

  /** The history contains enough failures in a row, not yet followed by enough successes in a row. */
  ghost predicate Down(h: seq<CheckResult>, cfg: Thresholds) {
    exists p: nat | p <= |h| :: DownSince(h, cfg, p)
  }

  /** For every history, even one longer than the counters can count. */
  lemma {:induction false} FlagMeaning(h: seq<CheckResult>, cfg: Thresholds)
    requires Positive(cfg)
    ensures !Replay(h, cfg).flag <==> Down(h, cfg)
  {
    hide Replay, TrailingRun, DownSince;
    if |h| == 0 {
      NeverDown(h, cfg);
    } else {
      var g := h[..|h| - 1];
      FlagMeaning(g, cfg);
      FlagStep(h, cfg);
      DownNow(h, cfg);
      forall p: nat | p < |h|
        ensures DownSince(h, cfg, p) <==> DownSince(g, cfg, p) && TrailingRun(h, Healthy) < cfg.healthy
      {
        DownSinceStep(h, cfg, p);
      }
      if !Replay(h, cfg).flag && TrailingRun(h, Unhealthy) < cfg.unhealthy {
        var p: nat :| p <= |g| && DownSince(g, cfg, p);
        assert DownSince(h, cfg, p);
      }
      if p: nat :| p <= |h| && DownSince(h, cfg, p) {
        assert p < |h| ==> p <= |g| && DownSince(g, cfg, p);
      }
    }
  }

  lemma {:induction false} NeverDown(h: seq<CheckResult>, cfg: Thresholds)
    requires Positive(cfg) && |h| == 0
    ensures Replay(h, cfg).flag && forall p: nat | p <= |h| :: !DownSince(h, cfg, p)
  {
    assert h[..0] == h;
  }

  lemma {:induction false} DownNow(h: seq<CheckResult>, cfg: Thresholds)
    requires Positive(cfg) && |h| > 0
    ensures DownSince(h, cfg, |h|) <==> TrailingRun(h, Unhealthy) >= cfg.unhealthy
    ensures TrailingRun(h, Unhealthy) == 0 || TrailingRun(h, Healthy) == 0
  {
    assert h[..|h|] == h;
  }

  lemma {:induction false} DownSinceStep(h: seq<CheckResult>, cfg: Thresholds, p: nat)
    requires p < |h|
    ensures DownSince(h, cfg, p) <==> DownSince(h[..|h| - 1], cfg, p) && TrailingRun(h, Healthy) < cfg.healthy
  {
    var g := h[..|h| - 1];
    assert h[..|h|] == h;
    assert forall q | 0 <= q <= |g| :: h[..q] == g[..q];
  }

  // ---------- Flips ----------

  /** How often the flag changed over the history. */
  function Flips(h: seq<CheckResult>, cfg: Thresholds): (f: nat) {
    if |h| == 0 then 0
    else Flips(h[..|h| - 1], cfg) + if Replay(h, cfg).flag != Replay(h[..|h| - 1], cfg).flag then 1 else 0
  }

  /** The results f flips need: the odd ones a full run of failures, the even ones of successes. */
  function FlipCost(f: nat, cfg: Thresholds): nat {
    (f + 1) / 2 * cfg.unhealthy + f / 2 * cfg.healthy
  }

  lemma {:induction false} FlipCostStep(f: nat, cfg: Thresholds)
    ensures FlipCost(f + 1, cfg) == FlipCost(f, cfg) + if f % 2 == 0 then cfg.unhealthy else cfg.healthy
  {
    if f % 2 == 0 {
      assert (f + 2) / 2 == (f + 1) / 2 + 1 && (f + 1) / 2 == f / 2;
    } else {
      assert (f + 2) / 2 == (f + 1) / 2 && (f + 1) / 2 == f / 2 + 1;
    }
  }

  /** f flips need at least ceil(f/2) * unhealthy + floor(f/2) * healthy results. */
  lemma {:induction false} NoFlapping(h: seq<CheckResult>, cfg: Thresholds)
    requires Positive(cfg)
    ensures FlipCost(Flips(h, cfg), cfg) <= |h|
  {
    FlipsArePaid(h, cfg);
  }

  lemma {:induction false} FlipsArePaid(h: seq<CheckResult>, cfg: Thresholds)
    requires Positive(cfg)
    ensures Replay(h, cfg).flag <==> Flips(h, cfg) % 2 == 0
    ensures FlipCost(Flips(h, cfg), cfg)
          + (if Replay(h, cfg).flag then TrailingRun(h, Unhealthy) else TrailingRun(h, Healthy)) <= |h|
  {
    hide FlipCost, Replay;
    if |h| == 0 {
      assert h == [];
      EmptyHistory(cfg);
    } else {
      var g := h[..|h| - 1];
      FlipsArePaid(g, cfg);
      FlagBoundsRun(g, cfg);
      FlagStep(h, cfg);
      FlipCostStep(Flips(g, cfg), cfg);
    }
  }

  /** A result flips the flag exactly when it makes the opposing run as long as its threshold. */
  lemma {:induction false} FlipAtThreshold(h: seq<CheckResult>, cfg: Thresholds)
    requires Positive(cfg) && |h| > 0
    ensures var before, after := Replay(h[..|h| - 1], cfg).flag, Replay(h, cfg).flag;
            && (before && !after <==> before && TrailingRun(h, Unhealthy) == cfg.unhealthy)
            && (!before && after <==> !before && TrailingRun(h, Healthy) == cfg.healthy)
  {
    FlagBoundsRun(h[..|h| - 1], cfg);
    FlagStep(h, cfg);
    hide Replay;
  }

  function Opposite(r: CheckResult): CheckResult {
    if r.Healthy? then Unhealthy else Healthy
  }

  /** The run of equal results that flips the flag to what they say. */
  function FullRun(r: CheckResult, cfg: Thresholds): nat {
    if r.Healthy? then cfg.healthy else cfg.unhealthy
  }

  function Repeat(r: CheckResult, j: nat): (h: seq<CheckResult>)
    ensures |h| == j
  {
    if j == 0 then [] else Repeat(r, j - 1) + [r]
  }

  /** The result that can make flip number f. */
  function FlipMaker(f: nat): CheckResult {
    if f % 2 == 0 then Unhealthy else Healthy
  }

  /** Failures and successes in full alternating runs, f runs in all. */
  function Alternating(f: nat, cfg: Thresholds): seq<CheckResult> {
    if f == 0 then []
    else Alternating(f - 1, cfg) + Repeat(FlipMaker(f - 1), FullRun(FlipMaker(f - 1), cfg))
  }

  /** Equal results against the flag: nothing flips before the run is full, and then it flips once. */
  lemma {:induction false} RunOf(h: seq<CheckResult>, r: CheckResult, j: nat, cfg: Thresholds)
    requires Positive(cfg) && TrailingRun(h, r) == 0 && Replay(h, cfg).flag == r.Unhealthy? && j <= FullRun(r, cfg)
    ensures var g := h + Repeat(r, j);
            && TrailingRun(g, r) == j
            && (j > 0 ==> TrailingRun(g, Opposite(r)) == 0)
            && Replay(g, cfg).flag == (if j < FullRun(r, cfg) then r.Unhealthy? else r.Healthy?)
            && Flips(g, cfg) == if j < FullRun(r, cfg) then Flips(h, cfg) else Flips(h, cfg) + 1
  {
    var g := h + Repeat(r, j);
    if j == 0 {
      assert g == h;
    } else {
      hide Replay;
      RunOf(h, r, j - 1, cfg);
      assert g[..|g| - 1] == h + Repeat(r, j - 1);
      FlagStep(g, cfg);
    }
  }

  /** The bound is met for every f. */
  lemma {:induction false} NoFlappingIsTight(f: nat, cfg: Thresholds)
    requires Positive(cfg)
    ensures |Alternating(f, cfg)| == FlipCost(f, cfg) && Flips(Alternating(f, cfg), cfg) == f
    ensures Replay(Alternating(f, cfg), cfg).flag == (f % 2 == 0)
    ensures TrailingRun(Alternating(f, cfg), FlipMaker(f)) == 0
  {
    hide Replay, Flips, FlipCost, TrailingRun, Repeat, FlipMaker;
    FlipMakers(f);
    if f == 0 {
      EmptyHistory(cfg);
    } else {
      NoFlappingIsTight(f - 1, cfg);
      FlipMakers(f - 1);
      FlipCostStep(f - 1, cfg);
      RunOf(Alternating(f - 1, cfg), FlipMaker(f - 1), FullRun(FlipMaker(f - 1), cfg), cfg);
    }
  }

  lemma {:induction false} FlipMakers(f: nat)
    ensures FlipMaker(f).Unhealthy? <==> f % 2 == 0
    ensures FlipMaker(f + 1) == Opposite(FlipMaker(f))
  {
  }

  lemma {:induction false} EmptyHistory(cfg: Thresholds)
    ensures Replay([], cfg).flag && Flips([], cfg) == 0 && FlipCost(0, cfg) == 0
    ensures forall r :: TrailingRun([], r) == 0
  {
  }

  // ---------- Zero thresholds ----------

  lemma {:induction false} ReplayStep(h: seq<CheckResult>, r: CheckResult, cfg: Thresholds)
    ensures Replay(h + [r], cfg) == Observe(Replay(h, cfg), r, cfg)
    ensures TrailingRun(h + [r], r) == TrailingRun(h, r) + 1
    ensures TrailingRun(h + [r], Opposite(r)) == 0
  {
    assert (h + [r])[..|h|] == h;
  }

  lemma {:induction false} RepeatRun(r: CheckResult, j: nat)
    ensures TrailingRun(Repeat(r, j), r) == j
  {
    if j > 0 {
      RepeatRun(r, j - 1);
      assert Repeat(r, j)[..j - 1] == Repeat(r, j - 1);
    }
  }

  /** With an unhealthy threshold of zero the flag forgets everything but the successes it counts. */
  lemma {:induction false} ZeroUnhealthyThreshold(h: seq<CheckResult>, cfg: Thresholds)
    requires cfg.unhealthy == 0 && |h| > 0
    ensures Replay(h, cfg).flag <==> TrailingRun(h, Healthy) % TWO_32 >= cfg.healthy
  {
    CountersAreTrailingRuns(h, cfg);
  }

  /** With a healthy threshold of zero the flag never goes down. */
  lemma {:induction false} ZeroHealthyThreshold(h: seq<CheckResult>, cfg: Thresholds)
    requires cfg.healthy == 0
    ensures Replay(h, cfg).flag
  {
  }

  /** No backend ever leaves rotation, whatever its checks say, exactly when the healthy threshold is zero. */
  lemma {:induction false} AlwaysUpIff(cfg: Thresholds)
    requires cfg.unhealthy < TWO_32
    ensures (forall h: seq<CheckResult> :: Replay(h, cfg).flag) <==> cfg.healthy == 0
  {
    if cfg.healthy == 0 {
      forall h: seq<CheckResult> ensures Replay(h, cfg).flag {
        ZeroHealthyThreshold(h, cfg);
      }
    } else {
      ghost var h := Repeat(Unhealthy, cfg.unhealthy);
      RepeatRun(Unhealthy, cfg.unhealthy);
      CountersAreTrailingRuns(h, cfg);
      ReplayStep(h, Unhealthy, cfg);
      hide Replay, TrailingRun;
      assert !Replay(h, cfg).flag || !Replay(h + [Unhealthy], cfg).flag;
    }
  }

  /** Over all histories and thresholds, a failure never brings a backend back. */
  lemma {:induction false} FailureNeverMarksUp(h: seq<CheckResult>, cfg: Thresholds)
    ensures Replay(h + [Unhealthy], cfg).flag ==> Replay(h, cfg).flag
  {
    ReplayStep(h, Unhealthy, cfg);
    if cfg.healthy == 0 {
      ZeroHealthyThreshold(h, cfg);
    }
  }

  /** After this history a success takes the backend out of rotation. */
  ghost predicate SuccessMarksDown(h: seq<CheckResult>, cfg: Thresholds) {
    Replay(h, cfg).flag && !Replay(h + [Healthy], cfg).flag
  }

  /**
   A success can take a backend down exactly when the unhealthy threshold is zero and the healthy one is not.
   Before the success counter wraps it takes a healthy threshold of 2 or more, and then the first success does.
   */
  lemma {:induction false} SuccessMarksDownIff(cfg: Thresholds)
    ensures (exists h :: SuccessMarksDown(h, cfg)) <==> cfg.unhealthy == 0 && cfg.healthy > 0
    ensures (exists h :: |h| < TWO_32 - 1 && SuccessMarksDown(h, cfg)) <==> cfg.unhealthy == 0 && cfg.healthy > 1
    ensures cfg.unhealthy == 0 && cfg.healthy > 1 ==> SuccessMarksDown([], cfg)
  {
    hide Replay;
    if cfg.unhealthy == 0 && cfg.healthy > 1 {
      FirstSuccessMarksDown(cfg);
    } else if cfg.unhealthy == 0 && cfg.healthy == 1 {
      WrapMarksDown(cfg);
    }
    forall h | SuccessMarksDown(h, cfg)
      ensures cfg.unhealthy == 0 && cfg.healthy > 0 && (|h| < TWO_32 - 1 ==> cfg.healthy > 1)
    {
      OnlyZeroMarksDown(h, cfg);
    }
  }

  lemma {:induction false} SuccessAlone(cfg: Thresholds)
    requires cfg.unhealthy == 0 && cfg.healthy > 1
    ensures !Observe(Monitored(FRESH, true), Healthy, cfg).flag
  {
  }

  lemma {:induction false} FirstSuccessMarksDown(cfg: Thresholds)
    requires cfg.unhealthy == 0 && cfg.healthy > 1
    ensures SuccessMarksDown([], cfg)
  {
    assert Replay([], cfg) == Monitored(FRESH, true);
    hide Replay, TrailingRun, Observe;
    ReplayStep([], Healthy, cfg);
    SuccessAlone(cfg);
  }

  /** After 2^32 - 1 successes in a row the next one finds the counter back at zero. */
  lemma {:induction false} WrapMarksDown(cfg: Thresholds)
    requires cfg.unhealthy == 0 && cfg.healthy == 1
    ensures SuccessMarksDown(Repeat(Healthy, TWO_32 - 1), cfg)
  {
    hide Replay, TrailingRun;
    var h := Repeat(Healthy, TWO_32 - 1);
    RepeatRun(Healthy, TWO_32 - 1);
    ReplayStep(h, Healthy, cfg);
    ZeroUnhealthyThreshold(h, cfg);
    ZeroUnhealthyThreshold(h + [Healthy], cfg);
  }

  lemma {:induction false} OnlyZeroMarksDown(h: seq<CheckResult>, cfg: Thresholds)
    requires SuccessMarksDown(h, cfg)
    ensures cfg.unhealthy == 0 && cfg.healthy > 0 && (|h| < TWO_32 - 1 ==> cfg.healthy > 1)
  {
    hide Replay, TrailingRun;
    ReplayStep(h, Healthy, cfg);
    if cfg.unhealthy == 0 {
      ZeroUnhealthyThreshold(h + [Healthy], cfg);
    }
  }

  /** With both thresholds at least 1 one result passes at most one of the two tests. */
  lemma {:induction false} AtMostOneMark(m: Monitored, r: CheckResult, cfg: Thresholds)
    requires Positive(cfg)
    ensures !(TakesDown(m, r, cfg) && BringsUp(m, r, cfg))
  {
  }

  /** The result after this history marks the backend down and then up again. */
  ghost predicate MarksTwice(h: seq<CheckResult>, r: CheckResult, cfg: Thresholds) {
    TakesDown(Replay(h, cfg), r, cfg) && BringsUp(Replay(h, cfg), r, cfg)
  }

  /** Some result of some history marks twice exactly when a threshold is zero and the other one lets it. */
  lemma {:induction false} TwoMarksIff(cfg: Thresholds)
    requires cfg.healthy < TWO_32 && cfg.unhealthy < TWO_32
    ensures (exists h, r :: MarksTwice(h, r, cfg))
       <==> cfg.healthy == 0 || (cfg.unhealthy == 0 && cfg.healthy < TWO_32 - 1)
  {
    if cfg.healthy == 0 {
      FailureMarksTwice(cfg);
    } else if cfg.unhealthy == 0 && cfg.healthy < TWO_32 - 1 {
      SuccessMarksTwice(cfg);
    }
    forall h, r | MarksTwice(h, r, cfg)
      ensures cfg.healthy == 0 || (cfg.unhealthy == 0 && cfg.healthy < TWO_32 - 1)
    {
      OnlyZeroMarksTwice(h, r, cfg);
    }
  }

  lemma {:induction false} FailureMarksTwice(cfg: Thresholds)
    requires cfg.healthy == 0 && cfg.unhealthy < TWO_32
    ensures exists h, r :: MarksTwice(h, r, cfg)
  {
    hide Replay, TrailingRun, Repeat;
    ghost var j := if cfg.unhealthy == 0 then 0 else cfg.unhealthy - 1;
    ghost var h := Repeat(Unhealthy, j);
    RepeatRun(Unhealthy, j);
    CountersAreTrailingRuns(h, cfg);
    ZeroHealthyThreshold(h, cfg);
    assert MarksTwice(h, Unhealthy, cfg);
  }

  lemma {:induction false} SuccessMarksTwice(cfg: Thresholds)
    requires cfg.unhealthy == 0 && 0 < cfg.healthy < TWO_32 - 1
    ensures exists h, r :: MarksTwice(h, r, cfg)
  {
    hide Replay, TrailingRun, Repeat;
    ghost var h := Repeat(Healthy, cfg.healthy);
    RepeatRun(Healthy, cfg.healthy);
    CountersAreTrailingRuns(h, cfg);
    ZeroUnhealthyThreshold(h, cfg);
    assert MarksTwice(h, Healthy, cfg);
  }

  lemma {:induction false} OnlyZeroMarksTwice(h: seq<CheckResult>, r: CheckResult, cfg: Thresholds)
    requires cfg.healthy < TWO_32 && cfg.unhealthy < TWO_32 && MarksTwice(h, r, cfg)
    ensures cfg.healthy == 0 || (cfg.unhealthy == 0 && cfg.healthy < TWO_32 - 1)
  {
    CountersAreTrailingRuns(h, cfg);
    if cfg.unhealthy == 0 && cfg.healthy == TWO_32 - 1 && |h| > 0 {
      ZeroUnhealthyThreshold(h, cfg);
    }
  }

  /** The documented meaning of the flag holds for every history exactly when both thresholds are at least 1. */
  lemma {:induction false} FlagMeaningNeedsPositiveThresholds(cfg: Thresholds)
    requires cfg.healthy < TWO_32 && cfg.unhealthy < TWO_32
    ensures (forall h: seq<CheckResult> :: !Replay(h, cfg).flag <==> Down(h, cfg))
       <==> cfg.healthy >= 1 && cfg.unhealthy >= 1
  {
    if cfg.healthy >= 1 && cfg.unhealthy >= 1 {
      forall h: seq<CheckResult>
        ensures !Replay(h, cfg).flag <==> Down(h, cfg)
      {
        FlagMeaning(h, cfg);
      }
    } else if cfg.unhealthy == 0 {
      ghost var h: seq<CheckResult> := [];
      assert Replay(h, cfg).flag && DownSince(h, cfg, 0);
      assert Down(h, cfg);
    } else {
      ghost var h := Repeat(Unhealthy, cfg.unhealthy);
      RepeatRun(Unhealthy, cfg.unhealthy);
      ZeroHealthyThreshold(h, cfg);
      assert h[..|h|] == h;
      assert DownSince(h, cfg, |h|);
      assert Down(h, cfg);
    }
  }
}
