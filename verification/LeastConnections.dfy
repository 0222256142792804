/** Least Connections: the first backend with the fewest live connections, and what that bounds. */
module LeastConnections {
  import opened Arithmetic
  import opened Backends
  import opened Sums
  import opened Words

  /** k is the first position that holds the least count. */
  ghost predicate IsFirstMin(c: seq<nat>, n: nat, k: nat)
    requires n <= |c|
  {
    && k < n
    && (forall i | 0 <= i < n :: c[k] <= c[i])
    && (forall i | 0 <= i < k :: c[k] < c[i])
  }

  function FirstMin(c: seq<nat>, n: nat): (k: nat)
    requires 0 < n <= |c|
    ensures IsFirstMin(c, n, k)
  {
    if n == 1 then 0 else
    var k := FirstMin(c, n - 1);
    if c[n - 1] < c[k] then n - 1 else k
  }

  lemma {:induction false} FirstMinIsUnique(c: seq<nat>, n: nat, j: nat, k: nat)
    requires n <= |c| && IsFirstMin(c, n, j) && IsFirstMin(c, n, k)
    ensures j == k
  {
    assert c[j] <= c[k] && c[k] <= c[j];
  }

  /** The scan over counters that hold still while it runs. */
  method Select(backends: seq<Backend>) returns (r: Option<nat>)
    requires forall b | b in backends :: b.activeConnections <= USIZE_MAX
    ensures |backends| == 0 ==> r == None
    ensures |backends| > 0 ==> r.Some? && IsFirstMin(Connections(backends), |backends|, r.value)
  {
    if |backends| == 0 {
      return None;
    }
    var leastIndex := 0;
    var leastConns := USIZE_MAX;
    for i := 0 to |backends|
      invariant i == 0 ==> leastIndex == 0 && leastConns == USIZE_MAX
      invariant i > 0 ==> IsFirstMin(Connections(backends), i, leastIndex)
      invariant i > 0 ==> leastConns == backends[leastIndex].activeConnections
    {
      var conns := backends[i].activeConnections;
      if conns < leastConns {
        leastConns := conns;
        leastIndex := i;
      }
    }
    return Some(leastIndex);
  }

  // ---------- The load of every backend over whole runs ----------

  /** Per backend: requests holding a guard, and requests selected for it that hold none yet. */
  datatype Load = Load(active: seq<nat>, pending: seq<nat>)

  /** A request selects, then takes its guard or is turned away, and later drops the guard. */
  datatype Event = Choose | TakeGuard(b: nat) | TurnAway(b: nat) | DropGuard(b: nat)

  ghost predicate Shaped(n: nat, l: Load) {
    n > 0 && |l.active| == |l.pending| == n
  }

  /** One event; an event that is not possible changes nothing. */
  function Apply(n: nat, l: Load, e: Event): (l': Load)
    requires Shaped(n, l)
    ensures Shaped(n, l')
  {
    match e
    case Choose =>
      var k := FirstMin(l.active, n);
      l.(pending := l.pending[k := l.pending[k] + 1])
    case TakeGuard(b) =>
      if b < n && l.pending[b] > 0 then
        Load(l.active[b := l.active[b] + 1], l.pending[b := l.pending[b] - 1])
      else l
    case TurnAway(b) =>
      if b < n && l.pending[b] > 0 then l.(pending := l.pending[b := l.pending[b] - 1]) else l
    case DropGuard(b) =>
      if b < n && l.active[b] > 0 then l.(active := l.active[b := l.active[b] - 1]) else l
  }

  function NoLoad(n: nat): Load {
    Load(seq(n, _ => 0), seq(n, _ => 0))
  }

  function Run(n: nat, events: seq<Event>): (l: Load)
    requires n > 0
    ensures Shaped(n, l)
  {
    if |events| == 0 then NoLoad(n)
    else Apply(n, Run(n, events[..|events| - 1]), events[|events| - 1])
  }

  /** At most K requests in flight, at most r of them between selection and guard. */
  ghost predicate Limits(n: nat, l: Load, K: nat, r: nat)
    requires Shaped(n, l)
  {
    SumTo(l.active, n) + SumTo(l.pending, n) <= K && SumTo(l.pending, n) <= r
  }

  /** The limits hold after every prefix of the events. */
  ghost predicate Within(n: nat, events: seq<Event>, K: nat, r: nat)
    requires n > 0
  {
    && Limits(n, Run(n, events), K, r)
    && (|events| > 0 ==> Within(n, events[..|events| - 1], K, r))
  }

  /** The most requests one backend can be given: with r == 1 this is K / n rounded up. */
  function Ceiling(n: nat, K: nat, r: nat): nat
    requires n > 0 && r <= K
  {
    (K - r) / n + r
  }

  /** Whatever completes in whatever order, no backend is ever given more than the ceiling. */
  lemma {:induction false} LoadBound(n: nat, events: seq<Event>, K: nat, r: nat, b: nat)
    requires b < n && 1 <= r <= K && Within(n, events, K, r)
    ensures Run(n, events).active[b] + Run(n, events).pending[b] <= Ceiling(n, K, r)
    decreases |events|
  {
    if |events| == 0 {
      assert (K - r) / n >= 0;
    } else {
      var before := Run(n, events[..|events| - 1]);
      var e := events[|events| - 1];
      LoadBound(n, events[..|events| - 1], K, r, b);
      CeilingKept(n, before, e, K, r, b);
    }
  }

  /** One event within the limits lifts no backend above the ceiling. */
  lemma {:induction false} CeilingKept(n: nat, l: Load, e: Event, K: nat, r: nat, b: nat)
    requires Shaped(n, l) && b < n && 1 <= r <= K && Limits(n, Apply(n, l, e), K, r)
    requires l.active[b] + l.pending[b] <= Ceiling(n, K, r)
    ensures Apply(n, l, e).active[b] + Apply(n, l, e).pending[b] <= Ceiling(n, K, r)
  {
    if e.Choose? {
      ChooseBound(n, l, K, r);
    }
  }

  lemma {:induction false} ChooseBound(n: nat, l: Load, K: nat, r: nat)
    requires Shaped(n, l) && 1 <= r <= K && Limits(n, Apply(n, l, Choose), K, r)
    ensures var k := FirstMin(l.active, n);
            l.active[k] + l.pending[k] + 1 <= Ceiling(n, K, r)
  {
    var k := FirstMin(l.active, n);
    var v := l.pending[k] + 1;
    SumToUpdate(l.pending, n, k, v);
    EntryAtMostSum(l.pending, n, k);
    SumToAtLeast(l.active, n, l.active[k]);
    CeilingArithmetic(n, l.active[k], SumTo(l.active, n), SumTo(l.pending, n), K, r);
  }

  lemma {:induction false} CeilingArithmetic(n: int, x: int, a: int, p: int, K: int, r: int)
    requires n > 0 && n * x <= a && a + p + 1 <= K && 0 <= p && p + 1 <= r <= K
    ensures x + p + 1 <= (K - r) / n + r
  {
    var d := r - 1 - p;
    ProductOrder(n, 0, d);
    AtLeastItself(n, d);
    Distribute(n, x, d);
    QuotientAtLeast(K - r, n, x - d);
  }

  lemma {:induction false} AtLeastItself(n: int, d: int)
    requires n > 0 && d >= 0
    ensures n * d >= d
  {
  }

  // ---------- The ceiling is reached ----------

  /** The counts after m requests dealt out in turn. */
  function Dealt(n: nat, m: nat): (c: seq<nat>)
    requires n > 0
    ensures |c| == n
  {
    seq(n, i => m / n + if i < m % n then 1 else 0)
  }

  lemma {:induction false} NextInTurn(n: nat, m: nat)
    requires n > 0
    ensures FirstMin(Dealt(n, m), n) == m % n
    ensures Dealt(n, m)[m % n := Dealt(n, m)[m % n] + 1] == Dealt(n, m + 1)
  {
    FirstMinIsUnique(Dealt(n, m), n, FirstMin(Dealt(n, m), n), m % n);
    DivisionStep(n, m);
  }

  lemma {:induction false} DivisionStep(n: int, m: int)
    requires n > 0 && m >= 0
    ensures m % n + 1 < n ==> (m + 1) / n == m / n && (m + 1) % n == m % n + 1
    ensures m % n + 1 == n ==> (m + 1) / n == m / n + 1 && (m + 1) % n == 0
  {
    var q, r := m / n, m % n;
    assert m == n * q + r;
    Distribute(n, q, 1);
    if r + 1 < n {
      DivisionIs(m + 1, n, q, r + 1);
    } else {
      DivisionIs(m + 1, n, q + 1, 0);
    }
  }

  lemma {:induction false} DealtSum(n: nat, m: nat)
    requires n > 0
    ensures SumTo(Dealt(n, m), n) == m
  {
    if m == 0 {
      assert forall i | 0 <= i < n :: Dealt(n, 0)[i] == 0;
      SumToAtLeast(Dealt(n, 0), n, 0);
      SumToAtMost(Dealt(n, 0), n, 0);
    } else {
      DealtSum(n, m - 1);
      NextInTurn(n, m - 1);
      var before := Dealt(n, m - 1);
      var v := before[(m - 1) % n] + 1;
      SumToUpdate(before, n, (m - 1) % n, v);
    }
  }

  /** The loads of these runs: m requests dealt in turn, and j more selected for backend k. */
  function DealtWith(n: nat, m: nat, k: nat, j: nat): (l: Load)
    requires k < n
    ensures Shaped(n, l)
  {
    Load(Dealt(n, m), seq(n, i => if i == k then j else 0))
  }

  lemma {:induction false} DealtLimits(n: nat, m: nat, k: nat, j: nat, K: nat, r: nat)
    requires k < n && m + j <= K && j <= r
    ensures Limits(n, DealtWith(n, m, k, j), K, r)
  {
    DealtSum(n, m);
    var none := seq(n, i => 0);
    SumToAtLeast(none, n, 0);
    SumToAtMost(none, n, 0);
    assert DealtWith(n, m, k, j).pending == none[k := j];
    SumToUpdate(none, n, k, j);
  }

  lemma {:induction false} ChooseInTurn(n: nat, m: nat, j: nat)
    requires n > 0
    ensures Apply(n, DealtWith(n, m, m % n, j), Choose) == DealtWith(n, m, m % n, j + 1)
  {
    NextInTurn(n, m);
  }

  lemma {:induction false} GuardInTurn(n: nat, m: nat)
    requires n > 0
    ensures Apply(n, DealtWith(n, m, m % n, 1), TakeGuard(m % n)) == DealtWith(n, m + 1, (m + 1) % n, 0)
  {
    NextInTurn(n, m);
  }

  lemma {:induction false} Extend(n: nat, events: seq<Event>, e: Event, K: nat, r: nat)
    requires n > 0 && Within(n, events, K, r) && Limits(n, Apply(n, Run(n, events), e), K, r)
    ensures Within(n, events + [e], K, r) && Run(n, events + [e]) == Apply(n, Run(n, events), e)
  {
    assert (events + [e])[..|events|] == events;
  }

  /** m requests that each take their guard at once leave the backends dealt in turn. */
  lemma {:induction false} Fill(n: nat, K: nat, r: nat, m: nat) returns (events: seq<Event>)
    requires n > 0 && 1 <= r <= K && m <= K
    ensures Within(n, events, K, r) && Run(n, events) == DealtWith(n, m, m % n, 0)
  {
    hide Limits, Apply, Dealt;
    DealtLimits(n, m, m % n, 0, K, r);
    if m == 0 {
      events := [];
      assert NoLoad(n) == DealtWith(n, 0, 0, 0) by {
        NothingDealt(n);
      }
    } else {
      var k := (m - 1) % n;
      events := Fill(n, K, r, m - 1);
      ChooseInTurn(n, m - 1, 0);
      DealtLimits(n, m - 1, k, 1, K, r);
      Extend(n, events, Choose, K, r);
      events := events + [Choose];
      GuardInTurn(n, m - 1);
      Extend(n, events, TakeGuard(k), K, r);
      events := events + [TakeGuard(k)];
    }
  }

  lemma {:induction false} NothingDealt(n: nat)
    requires n > 0
    ensures NoLoad(n) == DealtWith(n, 0, 0, 0)
  {
  }

  /** j selections in a row, none of them guarded yet, all choose the same backend. */
  lemma {:induction false} Pile(n: nat, K: nat, r: nat, j: nat) returns (events: seq<Event>)
    requires n > 0 && 1 <= r <= K && j <= r
    ensures Within(n, events, K, r)
    ensures Run(n, events) == DealtWith(n, K - r, (K - r) % n, j)
  {
    if j == 0 {
      events := Fill(n, K, r, K - r);
    } else {
      hide Limits, Apply, Dealt;
      events := Pile(n, K, r, j - 1);
      ChooseInTurn(n, K - r, j - 1);
      DealtLimits(n, K - r, (K - r) % n, j, K, r);
      Extend(n, events, Choose, K, r);
      events := events + [Choose];
    }
  }

  /** For every n, K and r some run within the limits gives one backend exactly the ceiling. */
  lemma {:induction false} LoadBoundIsTight(n: nat, K: nat, r: nat) returns (events: seq<Event>, b: nat)
    requires n > 0 && 1 <= r <= K
    ensures b < n && Within(n, events, K, r)
    ensures Run(n, events).active[b] + Run(n, events).pending[b] == Ceiling(n, K, r)
  {
    events := Pile(n, K, r, r);
    b := (K - r) % n;
  }

  /** With selection and guard taken as one step the ceiling is K / n rounded up. */
  lemma {:induction false} AtomicCeiling(n: nat, K: nat)
    requires n > 0 && K > 0
    ensures Ceiling(n, K, 1) == (K + n - 1) / n
  {
    var q, s := (K - 1) / n, (K - 1) % n;
    Distribute(n, q, 1);
    DivisionIs(K + n - 1, n, q + 1, s);
  }

  // ---------- When K / n rounded up survives ----------

  /** K / n rounded up. */
  function EvenShare(n: nat, K: nat): nat
    requires n > 0
  {
    (K + n - 1) / n
  }

  lemma {:induction false} CarryArithmetic(n: int, K: int, r: int, q: int, s: int, t: int, e: int)
    requires n > 0 && K - r == n * q + s && s + r - 1 == n * t + e && 0 <= e < n
    ensures (K + n - 1) / n == q + t + 1
    ensures (n - 1) * (r - 1) <= s <==> r - 1 <= t
  {
    Distribute(n, q, t);
    Distribute(n, q + t, 1);
    DivisionIs(K + n - 1, n, q + t + 1, e);
    Distribute(r - 1, n, 1);
    ProductOrder(n, t, r - 2);
    ProductOrder(n, t, r - 1);
    Distribute(n, r - 1, 1);
  }

  /** The ceiling is no more than K / n rounded up exactly when the remainder of K - r pays for the r - 1 others. */
  lemma {:induction false} CeilingIsEvenIff(n: nat, K: nat, r: nat)
    requires n > 0 && 1 <= r <= K
    ensures Ceiling(n, K, r) <= EvenShare(n, K) <==> (n - 1) * (r - 1) <= (K - r) % n
  {
    var q, s := (K - r) / n, (K - r) % n;
    var t, e := (s + r - 1) / n, (s + r - 1) % n;
    CarryArithmetic(n, K, r, q, s, t, e);
  }

  /** No run within the limits gives a backend more than K / n rounded up. */
  ghost predicate StaysEven(n: nat, K: nat, r: nat)
    requires n > 0
  {
    forall events, b | Within(n, events, K, r) && 0 <= b < n ::
      Run(n, events).active[b] + Run(n, events).pending[b] <= EvenShare(n, K)
  }

  /** That is so exactly when (n - 1) * (r - 1) is at most the remainder of K - r by n. */
  lemma {:induction false} StaysEvenIff(n: nat, K: nat, r: nat)
    requires n > 0 && 1 <= r <= K
    ensures StaysEven(n, K, r) <==> (n - 1) * (r - 1) <= (K - r) % n
  {
    hide Run, Within, Ceiling, EvenShare;
    CeilingIsEvenIff(n, K, r);
    if Ceiling(n, K, r) <= EvenShare(n, K) {
      forall events, b | Within(n, events, K, r) && 0 <= b < n
        ensures Run(n, events).active[b] + Run(n, events).pending[b] <= EvenShare(n, K)
      {
        LoadBound(n, events, K, r, b);
      }
    } else {
      var events, b := LoadBoundIsTight(n, K, r);
    }
  }
}
