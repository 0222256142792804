/** Where three strategies coincide: equal weights, no completions and a plain counter all rotate. */
module Rotation {
  import opened Arithmetic
  import opened Sums
  import opened SmoothWrr
  import LeastConnections
  import RoundRobins
  import opened Words

  function EqualWeights(n: nat, v: nat): (w: seq<nat>) {
    seq(n, _ => v)
  }

  lemma {:induction false} EqualSize(n: nat, v: nat)
    ensures |EqualWeights(n, v)| == n
  {
  }

  /** The counters after k requests that Least Connections places and that never complete. */
  function ArrivalsOnly(n: nat, k: nat): (c: seq<nat>)
    requires n > 0
    ensures |c| == n
  {
    if k == 0 then seq(n, _ => 0) else
    var c := ArrivalsOnly(n, k - 1);
    var b := LeastConnections.FirstMin(c, n);
    c[b := c[b] + 1]
  }

  lemma {:induction false} ArrivalsAreDealt(n: nat, k: nat)
    requires n > 0
    ensures ArrivalsOnly(n, k) == LeastConnections.Dealt(n, k)
  {
    if k > 0 {
      ArrivalsAreDealt(n, k - 1);
      LeastConnections.NextInTurn(n, k - 1);
    }
  }

  lemma {:induction false} EqualTotal(n: nat, v: nat, m: nat)
    requires m <= n
    ensures SumTo(EqualWeights(n, v), m) == v * m
  {
    if m > 0 {
      EqualTotal(n, v, m - 1);
      Distribute(v, m - 1, 1);
    }
  }

  /** The credits of the rotation: positions already served in this round are n shares behind the rest. */
  function RotationCredits(n: nat, v: nat, r: nat): (c: seq<int>) {
    seq(n, i => if i < r then v * r - v * n else v * r)
  }

  lemma {:induction false} RotationStep(n: nat, v: nat, r: nat)
    requires v > 0 && r < n
    ensures Choice(RotationCredits(n, v, r), EqualWeights(n, v)) == r
    ensures Select(RotationCredits(n, v, r), EqualWeights(n, v))
         == RotationCredits(n, v, if r + 1 == n then 0 else r + 1)
  {
    var c, w := RotationCredits(n, v, r), EqualWeights(n, v);
    var a := Add(c, w);
    Distribute(v, r, 1);
    PositiveTimes(v, n);
    forall i | 0 <= i < n ensures a[i] == v * (r + 1) - if i < r then v * n else 0 {
    }
    FirstMaxIsUnique(a, n, r, Choice(c, w));
    EqualTotal(n, v, n);
    assert v * 0 == 0;
    assert Select(c, w) == RotationCredits(n, v, if r + 1 == n then 0 else r + 1);
  }

  /** The credits of the rotation before selection number k. */
  function RotationAt(n: nat, v: nat, k: nat): seq<int>
    requires n > 0
  {
    RotationCredits(n, v, k % n)
  }

  lemma {:induction false} RotationAtStep(n: nat, v: nat, k: nat)
    requires n > 0 && v > 0
    ensures |RotationAt(n, v, k)| == n
    ensures Choice(RotationAt(n, v, k), EqualWeights(n, v)) == k % n
    ensures Select(RotationAt(n, v, k), EqualWeights(n, v)) == RotationAt(n, v, k + 1)
  {
    hide Choice, Select;
    RotationStep(n, v, k % n);
    NextTurn(n, k);
  }

  lemma {:induction false} EqualWeightsRotate(n: nat, v: nat, k: nat)
    requires n > 0 && v > 0
    ensures Credits(EqualWeights(n, v), k) == RotationAt(n, v, k)
    ensures Pick(EqualWeights(n, v), k) == k % n
  {
    hide Choice, Select, RotationAt, Credits, EqualWeights;
    EqualSize(n, v);
    RotationAtStep(n, v, k);
    if k == 0 {
      StartOfRotation(n, v);
      CreditsUnfold(EqualWeights(n, v), 0);
    } else {
      CreditsUnfold(EqualWeights(n, v), k - 1);
      EqualWeightsRotate(n, v, k - 1);
      RotationAtStep(n, v, k - 1);
    }
  }

  lemma {:induction false} NextTurn(n: nat, k: nat)
    requires n > 0
    ensures (k + 1) % n == if k % n + 1 == n then 0 else k % n + 1
  {
    LeastConnections.DivisionStep(n, k);
  }

  lemma {:induction false} StartOfRotation(n: nat, v: nat)
    requires n > 0
    ensures Zeros(n) == RotationAt(n, v, 0)
  {
    assert v * 0 == 0;
  }

  /** Smooth WRR with equal weights, Least Connections without completions and Round Robin agree. */
  lemma {:induction false} ThreeWayAgreement(n: nat, v: nat, k: nat)
    requires n > 0 && v > 0
    ensures Pick(EqualWeights(n, v), k) == k % n
    ensures LeastConnections.FirstMin(ArrivalsOnly(n, k), n) == k % n
    ensures k < TWO_64 ==> RoundRobins.TurnOf(n, k) == k % n
  {
    hide Pick, ArrivalsOnly, LeastConnections.FirstMin, LeastConnections.Dealt, RoundRobins.CounterAt;
    EqualWeightsRotate(n, v, k);
    ArrivalsAreDealt(n, k);
    LeastConnections.NextInTurn(n, k);
    RoundRobins.CounterIsCallCount(k);
  }
}
