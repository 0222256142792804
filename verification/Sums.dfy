/** Sums over the positions of a sequence, the bookkeeping behind every credit argument. */
module Sums {

  /** The sum of the first n entries. */
  function SumTo(s: seq<int>, n: nat): int
    requires n <= |s|
  {
    if n == 0 then 0 else SumTo(s, n - 1) + s[n - 1]
  }

  /** The sum of the entries among the first n whose position lies in S. */
  ghost function SumOver(s: seq<int>, n: nat, S: set<nat>): int
    requires n <= |s|
  {
    if n == 0 then 0 else SumOver(s, n - 1, S) + if n - 1 in S then s[n - 1] else 0
  }

  lemma {:induction false} SumToPointwise(a: seq<int>, b: seq<int>, c: seq<int>, n: nat)
    requires n <= |a| && n <= |b| && n <= |c|
    requires forall i | 0 <= i < n :: c[i] == a[i] + b[i]
    ensures SumTo(c, n) == SumTo(a, n) + SumTo(b, n)
  {
    if n > 0 {
      SumToPointwise(a, b, c, n - 1);
    }
  }

  lemma {:induction false} SumToSame(a: seq<int>, b: seq<int>, n: nat)
    requires n <= |a| && n <= |b|
    requires forall i | 0 <= i < n :: a[i] == b[i]
    ensures SumTo(a, n) == SumTo(b, n)
  {
    if n > 0 {
      SumToSame(a, b, n - 1);
    }
  }

  lemma {:induction false} SumToScaled(a: seq<int>, b: seq<int>, g: int, n: nat)
    requires n <= |a| && n <= |b|
    requires forall i | 0 <= i < n :: b[i] == g * a[i]
    ensures SumTo(b, n) == g * SumTo(a, n)
  {
    if n > 0 {
      SumToScaled(a, b, g, n - 1);
    }
  }

  lemma {:induction false} SumToUpdate(s: seq<int>, n: nat, k: nat, v: int)
    requires n <= |s| && k < |s|
    ensures k < n ==> SumTo(s[k := v], n) == SumTo(s, n) + v - s[k]
    ensures n <= k ==> SumTo(s[k := v], n) == SumTo(s, n)
  {
    if n > 0 {
      SumToUpdate(s, n - 1, k, v);
    }
  }

  lemma {:induction false} SumToLowered(s: seq<int>, n: nat, k: nat, x: int)
    requires k < n <= |s|
    ensures SumTo(s[k := s[k] - x], n) == SumTo(s, n) - x
  {
    var v := s[k] - x;
    SumToUpdate(s, n, k, v);
  }

  lemma {:induction false} SumToAtMost(s: seq<int>, n: nat, top: int)
    requires n <= |s|
    requires forall i | 0 <= i < n :: s[i] <= top
    ensures SumTo(s, n) <= n * top
  {
    if n > 0 {
      SumToAtMost(s, n - 1, top);
    }
  }

  lemma {:induction false} SumToAtLeast(s: seq<int>, n: nat, bottom: int)
    requires n <= |s|
    requires forall i | 0 <= i < n :: bottom <= s[i]
    ensures n * bottom <= SumTo(s, n)
  {
    if n > 0 {
      SumToAtLeast(s, n - 1, bottom);
    }
  }

  /** No single entry of a sequence without negative entries exceeds the sum. */
  lemma {:induction false} EntryAtMostSum(s: seq<int>, n: nat, k: nat)
    requires k < n <= |s|
    requires forall i | 0 <= i < n :: 0 <= s[i]
    ensures s[k] <= SumTo(s, n)
  {
    if k < n - 1 {
      EntryAtMostSum(s, n - 1, k);
    } else {
      SumToAtLeast(s, n - 1, 0);
    }
  }

  /** If one sequence is dominated by another entry by entry and the sums agree, so do the entries. */
  lemma {:induction false} DominatedWithEqualSum(a: seq<int>, b: seq<int>, n: nat)
    requires n <= |a| && n <= |b|
    requires forall i | 0 <= i < n :: a[i] <= b[i]
    ensures SumTo(a, n) <= SumTo(b, n)
    ensures SumTo(a, n) == SumTo(b, n) ==> forall i | 0 <= i < n :: a[i] == b[i]
  {
    if n > 0 {
      DominatedWithEqualSum(a, b, n - 1);
    }
  }

  lemma {:induction false} SumOverPointwise(a: seq<int>, b: seq<int>, c: seq<int>, n: nat, S: set<nat>)
    requires n <= |a| && n <= |b| && n <= |c|
    requires forall i | 0 <= i < n :: c[i] == a[i] + b[i]
    ensures SumOver(c, n, S) == SumOver(a, n, S) + SumOver(b, n, S)
  {
    if n > 0 {
      SumOverPointwise(a, b, c, n - 1, S);
    }
  }

  lemma {:induction false} SumOverUpdate(s: seq<int>, n: nat, S: set<nat>, k: nat, v: int)
    requires n <= |s| && k < |s|
    ensures k < n && k in S ==> SumOver(s[k := v], n, S) == SumOver(s, n, S) + v - s[k]
    ensures n <= k || k !in S ==> SumOver(s[k := v], n, S) == SumOver(s, n, S)
  {
    if n > 0 {
      SumOverUpdate(s, n - 1, S, k, v);
    }
  }

  lemma {:induction false} SumOverInsert(s: seq<int>, n: nat, S: set<nat>, k: nat)
    requires n <= |s| && k !in S
    ensures k < n ==> SumOver(s, n, S + {k}) == SumOver(s, n, S) + s[k]
    ensures n <= k ==> SumOver(s, n, S + {k}) == SumOver(s, n, S)
  {
    if n > 0 {
      SumOverInsert(s, n - 1, S, k);
    }
  }

  /** A subset of nonnegative entries sums to at most the whole. */
  lemma {:induction false} SumOverAtMostSum(s: seq<int>, n: nat, S: set<nat>)
    requires n <= |s|
    requires forall i | 0 <= i < n :: 0 <= s[i]
    ensures 0 <= SumOver(s, n, S) <= SumTo(s, n)
  {
    if n > 0 {
      SumOverAtMostSum(s, n - 1, S);
    }
  }

  lemma {:induction false} SumOverEmpty(s: seq<int>, n: nat)
    requires n <= |s|
    ensures SumOver(s, n, {}) == 0
  {
    if n > 0 {
      SumOverEmpty(s, n - 1);
    }
  }

  /** k entries, each at most top, sum to at most k * top. */
  lemma {:induction false} SumOverAtMost(s: seq<int>, n: nat, S: set<nat>, top: int)
    requires n <= |s|
    requires forall i | i in S :: i < n
    requires forall i | i in S :: s[i] <= top
    ensures SumOver(s, n, S) <= |S| * top
    decreases |S|
  {
    if S == {} {
      SumOverEmpty(s, n);
    } else {
      var k :| k in S;
      var rest := S - {k};
      assert S == rest + {k};
      SumOverAtMost(s, n, rest, top);
      SumOverInsert(s, n, rest, k);
      assert |S| * top == |rest| * top + top;
    }
  }

  lemma {:induction false} SumOverSingleton(s: seq<int>, n: nat, k: nat)
    requires k < n <= |s|
    ensures SumOver(s, n, {k}) == s[k]
  {
    SumOverEmpty(s, n);
    SumOverInsert(s, n, {}, k);
    assert {} + {k} == {k};
  }
}
