/** Round Robin: a 64-bit counter modulo the slice length. */
module RoundRobins {
  import opened Arithmetic
  import opened Backends
  import opened Words

  class RoundRobin {
    var counter: nat

    constructor ()
      ensures counter == 0
    {
      counter := 0;
    }

    ghost predicate Valid()
      reads this
    {
      counter < TWO_64
    }

    /** The counter advances on every call that finds a backend and wraps like the atomic it is. */
    method Select(backends: seq<Backend>) returns (r: Option<nat>)
      requires Valid()
      modifies this
      ensures Valid()
      ensures |backends| == 0 ==> r == None && counter == old(counter)
      ensures |backends| > 0 ==> r == Some(old(counter) % |backends|) && counter == (old(counter) + 1) % TWO_64
    {
      if |backends| == 0 {
        return None;
      }
      r := Some(counter % |backends|);
      counter := (counter + 1) % TWO_64;
    }
  }

  /** The counter before selection number k, counted from 0. */
  function CounterAt(k: nat): (c: nat) {
    if k == 0 then 0 else (CounterAt(k - 1) + 1) % TWO_64
  }

  /** The position selection number k chooses on a slice of n backends. */
  function TurnOf(n: nat, k: nat): (i: nat)
    requires n > 0
    ensures i < n
  {
    CounterAt(k) % n
  }

  lemma {:induction false} CounterIsCallCount(k: nat)
    ensures CounterAt(k) == k % TWO_64
  {
    if k > 0 {
      CounterIsCallCount(k - 1);
      RemainderShift(k - 1, TWO_64, 1);
    }
  }

  /** The rotation survives the wrap of the counter exactly when the slice length divides 2^64. */
  lemma {:induction false} RotationSurvivesWrap(n: nat)
    requires n > 0
    ensures (forall k: nat :: TurnOf(n, k) == k % n) <==> TWO_64 % n == 0
  {
    if TWO_64 % n == 0 {
      forall k: nat ensures TurnOf(n, k) == k % n {
        CounterIsCallCount(k);
        RemainderOfRemainder(k, TWO_64, n);
      }
    }
    if forall k: nat :: TurnOf(n, k) == k % n {
      CounterIsCallCount(TWO_64);
      assert TurnOf(n, TWO_64) == TWO_64 % n;
    }
  }

  lemma {:induction false} RemainderOfRemainder(k: int, M: int, n: int)
    requires n > 0 && M > 0 && M % n == 0
    ensures (k % M) % n == k % n
  {
    var q, t, c := M / n, k / M, k % M;
    assert M == n * q;
    Regroup(n, q, t, c / n, c % n);
    DivisionIs(k, n, q * t + c / n, c % n);
  }

  lemma {:induction false} Regroup(n: int, q: int, t: int, a: int, b: int)
    ensures (n * q) * t + (n * a + b) == n * (q * t + a) + b
  {
  }
}
