/**
 What a racing scan of Least Connections can do: everything the load model with its one-step selection does, and,
 with three backends and three requests that hold no guard, one connection more than its ceiling.
 */
module LeastScanRace {
  import opened Arithmetic
  import opened LeastScan
  import opened Sums
  import opened Words
  import LC = LeastConnections

  lemma {:induction false} Extend(n: nat, events: seq<Event>, e: Event, K: nat, r: nat)
    requires n > 0 && Within(n, events, K, r) && Limits(n, Apply(n, Run(n, events), e), K, r)
    ensures Within(n, events + [e], K, r) && Run(n, events + [e]) == Apply(n, Run(n, events), e)
  {
    assert (events + [e])[..|events|] == events;
  }

  // ---------- A scan that nothing races ----------

  /** s with one more scan, which has read the first i counters. */
  ghost predicate ReadSoFar(n: nat, s: State, s': State, i: nat)
    requires Shaped(n, s) && Shaped(n, s') && i < n
  {
    && s'.active == s.active && s'.pending == s.pending
    && |s'.scans| == |s.scans| + 1 && s'.scans == s.scans + [s'.scans[|s.scans|]]
    && var c := s'.scans[|s.scans|];
       c.next == i && (i > 0 ==> LC.IsFirstMin(s.active, i, c.best) && c.least == s.active[c.best])
  }

  /** s with one more choice of the first backend with the fewest connections. */
  ghost function Choice(n: nat, s: State): (s': State)
    requires Shaped(n, s)
    ensures Shaped(n, s')
  {
    var k := LC.FirstMin(s.active, n);
    s.(pending := s.pending[k := s.pending[k] + 1])
  }

  lemma {:induction false} ReadNext(n: nat, s: State, s': State, i: nat)
    requires Shaped(n, s) && Shaped(n, s') && i < n && ReadSoFar(n, s, s', i)
    requires s.active[i] < USIZE_MAX
    ensures var t := Apply(n, s', Read(|s.scans|));
            if i + 1 < n then ReadSoFar(n, s, t, i + 1) else t == Choice(n, s)
  {
    var k := |s.scans|;
    var c := Seen(s'.scans[k], s.active[i]);
    assert ScanOk(n, s'.scans[k]);
    assert LC.IsFirstMin(s.active, i + 1, c.best) && c.least == s.active[c.best];
    if i + 1 == n {
      LC.FirstMinIsUnique(s.active, n, c.best, LC.FirstMin(s.active, n));
      assert Without(s'.scans, k) == s.scans;
    } else {
      assert s'.scans[k := c] == s.scans + [c];
    }
  }

  lemma {:induction false} ScanAlong(n: nat, events: seq<Event>, i: nat, K: nat, r: nat) returns (events': seq<Event>)
    requires n > 0 && Within(n, events, K, r) && i < n && K <= USIZE_MAX
    requires Limits(n, Apply(n, Run(n, events), Begin), K, r)
    ensures Within(n, events', K, r) && ReadSoFar(n, Run(n, events), Run(n, events'), i)
  {
    hide Limits, Apply, Within;
    var s := Run(n, events);
    if i == 0 {
      Extend(n, events, Begin, K, r);
      events' := events + [Begin];
      BeginScan(n, s);
    } else {
      events' := ScanAlong(n, events, i - 1, K, r);
      var s' := Run(n, events');
      ReadStays(n, events', |s.scans|, K, r);
      WithinNow(n, events', K, r);
      BelowSentinel(n, s', i - 1, K, r);
      ReadNext(n, s, s', i - 1);
      events' := events' + [Read(|s.scans|)];
    }
  }

  lemma {:induction false} BeginScan(n: nat, s: State)
    requires Shaped(n, s)
    ensures ReadSoFar(n, s, Apply(n, s, Begin), 0)
  {
  }

  lemma {:induction false} WithinNow(n: nat, events: seq<Event>, K: nat, r: nat)
    requires n > 0 && Within(n, events, K, r)
    ensures Limits(n, Run(n, events), K, r)
  {
  }

  /** A read never leaves the limits. */
  lemma {:induction false} ReadStays(n: nat, events: seq<Event>, k: nat, K: nat, r: nat)
    requires n > 0 && Within(n, events, K, r) && k < |Run(n, events).scans|
    ensures Within(n, events + [Read(k)], K, r)
    ensures Run(n, events + [Read(k)]) == Apply(n, Run(n, events), Read(k))
  {
    hide ReadStep, Unguarded;
    ReadKeepsUnguarded(n, Run(n, events), k);
    Extend(n, events, Read(k), K, r);
  }

  /** A scan that nothing races makes the choice of the load model. */
  lemma {:induction false} ScanThrough(n: nat, events: seq<Event>, K: nat, r: nat) returns (events': seq<Event>)
    requires n > 0 && Within(n, events, K, r) && K <= USIZE_MAX
    requires Limits(n, Apply(n, Run(n, events), Begin), K, r)
    ensures Within(n, events', K, r) && Run(n, events') == Choice(n, Run(n, events))
  {
    hide Limits, Apply, Within, Run;
    var s := Run(n, events);
    events' := ScanAlong(n, events, n - 1, K, r);
    var s' := Run(n, events');
    ReadStays(n, events', |s.scans|, K, r);
    WithinNow(n, events', K, r);
    BelowSentinel(n, s', n - 1, K, r);
    ReadNext(n, s, s', n - 1);
    events' := events' + [Read(|s.scans|)];
  }

  /** The state is the load, with no scan under way. */
  ghost predicate Still(s: State, l: LC.Load) {
    s == State(l.active, l.pending, [])
  }

  /** The event that does what a load event does; a choice begins with its scan. */
  function Alike(f: LC.Event): Event {
    match f
    case Choose => Begin
    case TakeGuard(b) => TakeGuard(b)
    case TurnAway(b) => TurnAway(b)
    case DropGuard(b) => DropGuard(b)
  }

  /** Every run of the load model is a run in which no scan is raced. */
  lemma {:induction false} EveryLoadIsScanned(n: nat, loads: seq<LC.Event>, K: nat, r: nat)
    returns (events: seq<Event>)
    requires n > 0 && K <= USIZE_MAX && LC.Within(n, loads, K, r)
    ensures Within(n, events, K, r) && Still(Run(n, events), LC.Run(n, loads))
    decreases |loads|
  {
    if |loads| == 0 {
      events := [];
      assert Limits(n, Start(n), K, r) by {
        assert LC.Limits(n, LC.NoLoad(n), K, r);
      }
    } else {
      hide LC.Apply, LC.Limits, Within;
      events := EveryLoadIsScanned(n, loads[..|loads| - 1], K, r);
      events := ScanOne(n, events, LC.Run(n, loads[..|loads| - 1]), loads[|loads| - 1], K, r);
    }
  }

  lemma {:induction false} ScanOne(n: nat, events: seq<Event>, l: LC.Load, f: LC.Event, K: nat, r: nat)
    returns (events': seq<Event>)
    requires n > 0 && K <= USIZE_MAX && Within(n, events, K, r)
    requires LC.Shaped(n, l) && Still(Run(n, events), l) && LC.Limits(n, LC.Apply(n, l, f), K, r)
    ensures Within(n, events', K, r) && Still(Run(n, events'), LC.Apply(n, l, f))
  {
    hide Within, Run;
    if f.Choose? {
      var k := LC.FirstMin(l.active, n);
      SumToUpdate(l.pending, n, k, l.pending[k] + 1);
      events' := ScanThrough(n, events, K, r);
    } else {
      Extend(n, events, Alike(f), K, r);
      events' := events + [Alike(f)];
    }
  }

  /** So for every n, K and r some run gives one backend exactly the ceiling. */
  lemma {:induction false} ScanCeilingIsTight(n: nat, K: nat, r: nat) returns (events: seq<Event>, b: nat)
    requires n > 0 && 1 <= r <= K <= USIZE_MAX
    ensures b < n && Within(n, events, K, r)
    ensures Run(n, events).active[b] + Run(n, events).pending[b] == LC.Ceiling(n, K, r)
  {
    hide Run, Within, LC.Run, LC.Within, LC.Ceiling;
    var loads;
    loads, b := LC.LoadBoundIsTight(n, K, r);
    events := EveryLoadIsScanned(n, loads, K, r);
  }

  // ---------- A race that breaks the ceiling ----------

  /** The run gets there within the limits. */
  ghost predicate Reaches(n: nat, K: nat, r: nat, events: seq<Event>, s: State)
    requires n > 0
  {
    Within(n, events, K, r) && Run(n, events) == s
  }

  /** Requests end until the counters are a. */
  lemma {:induction false} DropTo(n: nat, K: nat, r: nat, events: seq<Event>, s: State, a: seq<nat>)
    returns (events': seq<Event>)
    requires n > 0 && Reaches(n, K, r, events, s) && |a| == n && forall i | 0 <= i < n :: a[i] <= s.active[i]
    ensures Reaches(n, K, r, events', s.(active := a))
    decreases SumTo(s.active, n)
  {
    if s.active == a {
      events' := events;
    } else {
      SumToAtLeast(s.active, n, 0);
      var i :| 0 <= i < n && a[i] < s.active[i];
      var x := s.active[i] - 1;
      SumToUpdate(s.active, n, i, x);
      var s' := s.(active := s.active[i := x]);
      SumToAtLeast(s'.active, n, 0);
      WithinNow(n, events, K, r);
      assert Apply(n, s, DropGuard(i)) == s';
      Extend(n, events, DropGuard(i), K, r);
      hide SumTo, Within, Run;
      events' := DropTo(n, K, r, events + [DropGuard(i)], s', a);
    }
  }

  lemma {:induction false} GuardOnce(n: nat, K: nat, r: nat, events: seq<Event>, s: State, b: nat)
    requires b < n && Reaches(n, K, r, events, s) && s.pending[b] > 0
    ensures Shaped(n, Apply(n, s, TakeGuard(b))) && Reaches(n, K, r, events + [TakeGuard(b)], Apply(n, s, TakeGuard(b)))
  {
    SumToUpdate(s.active, n, b, s.active[b] + 1);
    SumToUpdate(s.pending, n, b, s.pending[b] - 1);
    WithinNow(n, events, K, r);
    hide Within, Run, SumTo;
    Extend(n, events, TakeGuard(b), K, r);
  }

  /** Guards are taken on b, m in all. */
  lemma {:induction false} GuardSome(n: nat, K: nat, r: nat, events: seq<Event>, s: State, b: nat, m: nat)
    returns (events': seq<Event>)
    requires b < n && Reaches(n, K, r, events, s) && m <= s.pending[b]
    ensures Reaches(n, K, r, events',
                    s.(active := s.active[b := s.active[b] + m], pending := s.pending[b := s.pending[b] - m]))
    decreases m
  {
    if m == 0 {
      events' := events;
      assert s.active[b := s.active[b] + 0] == s.active && s.pending[b := s.pending[b] - 0] == s.pending;
    } else {
      var s' := Apply(n, s, TakeGuard(b));
      GuardOnce(n, K, r, events, s, b);
      hide Reaches;
      events' := GuardSome(n, K, r, events + [TakeGuard(b)], s', b, m - 1);
      assert s'.active[b := s'.active[b] + (m - 1)] == s.active[b := s.active[b] + m];
      assert s'.pending[b := s'.pending[b] - (m - 1)] == s.pending[b := s.pending[b] - m];
    }
  }

  lemma {:induction false} ChooseOnce(n: nat, K: nat, r: nat, events: seq<Event>, s: State, b: nat)
    returns (events': seq<Event>)
    requires n > 0 && K <= USIZE_MAX && Reaches(n, K, r, events, s) && LC.IsFirstMin(s.active, n, b)
    requires SumTo(s.active, n) + Unguarded(n, s) < K && Unguarded(n, s) < r
    ensures Reaches(n, K, r, events', s.(pending := s.pending[b := s.pending[b] + 1]))
  {
    LC.FirstMinIsUnique(s.active, n, b, LC.FirstMin(s.active, n));
    hide Within, Run, SumTo;
    events' := ScanThrough(n, events, K, r);
  }

  /** m more requests scan, nothing racing them, and choose b. */
  lemma {:induction false} ChooseSome(n: nat, K: nat, r: nat, events: seq<Event>, s: State, b: nat, m: nat)
    returns (events': seq<Event>)
    requires n > 0 && K <= USIZE_MAX && Reaches(n, K, r, events, s) && LC.IsFirstMin(s.active, n, b)
    requires SumTo(s.active, n) + Unguarded(n, s) + m <= K && Unguarded(n, s) + m <= r
    ensures Reaches(n, K, r, events', s.(pending := s.pending[b := s.pending[b] + m]))
    decreases m
  {
    if m == 0 {
      events' := events;
      assert s.pending[b := s.pending[b] + 0] == s.pending;
    } else {
      assert Shaped(n, s);
      hide Reaches;
      var one := ChooseOnce(n, K, r, events, s, b);
      var p := s.pending[b := s.pending[b] + 1];
      SumToUpdate(s.pending, n, b, s.pending[b] + 1);
      hide SumTo;
      events' := ChooseSome(n, K, r, one, s.(pending := p), b, m - 1);
      assert p[b := p[b] + (m - 1)] == s.pending[b := s.pending[b] + m];
    }
  }

  /** One counter for the first backend, and the same for all others. */
  function Row(n: nat, first: nat, rest: nat): (a: seq<nat>)
    requires n > 0
    ensures |a| == n
  {
    seq(n, i => if i == 0 then first else rest)
  }

  lemma {:induction false} RowFirst(n: nat, first: nat, rest: nat, v: nat)
    requires n > 0
    ensures Row(n, first, rest)[0] == first && Row(n, first, rest)[0 := v] == Row(n, v, rest)
  {
  }

  lemma {:induction false} RowAt(n: nat, first: nat, rest: nat, j: nat)
    requires 1 <= j < n
    ensures Row(n, first, rest)[j] == rest
  {
  }

  lemma {:induction false} RowSum(n: nat, m: nat, first: nat, rest: nat)
    requires 0 < m <= n
    ensures SumTo(Row(n, first, rest), m) == first + (m - 1) * rest
  {
    if m == 1 {
      assert SumTo(Row(n, first, rest), 0) == 0;
    } else {
      RowSum(n, m - 1, first, rest);
      Distribute(rest, m - 2, 1);
    }
  }

  /**
   The race is on: K - r is n * f and s more; the levels are d apart, d rounds out what s leaves open among the n - 2
   bystanders, and there are d + 2 requests without a guard and f connections to go down by d.
   */
  ghost predicate RaceOn(n: nat, K: nat, r: nat, d: nat) {
    && n >= 3 && d >= 1 && d + 2 <= r <= K <= USIZE_MAX
    && d <= (K - r) / n && (n - 2) * d + (K - r) % n >= n
  }

  /** What the tight moments take of the K requests, when the bystanders stand at level. */
  ghost predicate Room(n: nat, K: nat, r: nat, f: nat, level: nat) {
    && n >= 3 && 1 <= level <= f && f + 3 - level <= r <= K <= USIZE_MAX && f + 1 < K
    && n * f + r <= K
    && f + 1 + (n - 1) * level + r <= K
    && f + r + (n - 1) * level + f + 2 - level <= K
  }

  lemma {:induction false} RaceRoom(n: nat, K: nat, r: nat, d: nat)
    requires RaceOn(n, K, r, d)
    ensures var f := (K - r) / n; d <= f && Room(n, K, r, f, f + 1 - d)
  {
    var f, s := (K - r) / n, (K - r) % n;
    assert K - r == n * f + s;
    RoomArithmetic(n, f, d);
    PositiveTimes(n - 1, f + 1 - d);
  }

  lemma {:induction false} RoomArithmetic(n: int, f: int, d: int)
    ensures (n - 1) * (f + 1 - d) == n * f + n - f - 1 - (n - 2) * d - d
  {
  }

  /** All backends have f connections, and r requests choose the first. */
  lemma {:induction false} RaceFilled(n: nat, K: nat, r: nat, f: nat) returns (events: seq<Event>)
    requires n > 0 && 1 <= r <= K <= USIZE_MAX && n * f + r <= K
    ensures Reaches(n, K, r, events, State(Row(n, f, f), Row(n, r, 0), []))
  {
    var s := State(Row(n, f, f), Row(n, 0, 0), []);
    events := AllAt(n, K, r, f);
    RowSum(n, n, f, f);
    RowSum(n, n, 0, 0);
    assert f + (n - 1) * f == n * f;
    assert LC.IsFirstMin(s.active, n, 0);
    RowFirst(n, 0, 0, r);
    hide SumTo, Reaches, Row;
    events := ChooseSome(n, K, r, events, s, 0, r);
  }

  /** One of them takes its guard, and the other backends go down to the given level. */
  lemma {:induction false} RaceStart(n: nat, K: nat, r: nat, f: nat, level: nat) returns (events: seq<Event>)
    requires n > 0 && 1 <= r <= K <= USIZE_MAX && n * f + r <= K && level <= f
    ensures Reaches(n, K, r, events, State(Row(n, f + 1, level), Row(n, r - 1, 0), []))
  {
    events := RaceFilled(n, K, r, f);
    RowFirst(n, f, f, f + 1);
    RowFirst(n, r, 0, r - 1);
    var s := State(Row(n, f + 1, f), Row(n, r - 1, 0), []);
    assert forall i | 0 <= i < n :: Row(n, f + 1, level)[i] <= s.active[i];
    hide Reaches, Row;
    events := GuardSome(n, K, r, events, State(Row(n, f, f), Row(n, r, 0), []), 0, 1);
    events := DropTo(n, K, r, events, s, Row(n, f + 1, level));
  }

  /** Requests that take their guards at once leave every backend with f. */
  lemma {:induction false} AllAt(n: nat, K: nat, r: nat, f: nat) returns (events: seq<Event>)
    requires n > 0 && 1 <= r <= K <= USIZE_MAX && n * f <= K
    ensures Reaches(n, K, r, events, State(Row(n, f, f), Row(n, 0, 0), []))
  {
    hide Within, Run, LC.Run, LC.Within;
    var loads := LC.Fill(n, K, r, n * f);
    events := EveryLoadIsScanned(n, loads, K, r);
    var l := LC.DealtWith(n, n * f, (n * f) % n, 0);
    DivisionIs(n * f, n, f, 0);
    assert l.active == Row(n, f, f);
    assert l.pending == Row(n, 0, 0);
  }

  /** The moment of the race at which the old scan, which holds the first backend, is to read position j. */
  function Moment(n: nat, r: nat, f: nat, level: nat, j: nat): State
    requires n > 0
  {
    State(Row(n, f + r, level), Row(n, 0, 0), [Scan(j, 0, f + 1)])
  }

  /** The same once that position has come to stand at f + 1. */
  function Aloft(n: nat, r: nat, f: nat, level: nat, j: nat): State
    requires j < n
  {
    State(Row(n, f + r, level)[j := f + 1], Row(n, 0, 0), [Scan(j, 0, f + 1)])
  }

  /** A scan begins and reads the first backend. */
  lemma {:induction false} ScanFirst(n: nat, K: nat, r: nat, events: seq<Event>, a: seq<nat>, p: seq<nat>)
    returns (events': seq<Event>)
    requires n >= 2 && Reaches(n, K, r, events, State(a, p, [])) && a[0] < USIZE_MAX
    requires SumTo(a, n) + SumTo(p, n) + 1 <= K && SumTo(p, n) + 1 <= r
    ensures Reaches(n, K, r, events', State(a, p, [Scan(1, 0, a[0])]))
  {
    var s := State(a, p, []);
    hide SumTo, Within, Run;
    Extend(n, events, Begin, K, r);
    assert Apply(n, s, Begin) == State(a, p, [FRESH]);
    ReadStays(n, events + [Begin], 0, K, r);
    assert Apply(n, State(a, p, [FRESH]), Read(0)) == State(a, p, [Scan(1, 0, a[0])]);
    events' := events + [Begin] + [Read(0)];
  }

  /** A scan reads the first backend; then all guards on it are taken. */
  lemma {:induction false} RaceBegins(n: nat, K: nat, r: nat, f: nat, level: nat) returns (events: seq<Event>)
    requires Room(n, K, r, f, level)
    ensures Reaches(n, K, r, events, Moment(n, r, f, level, 1))
  {
    var a, p := Row(n, f + 1, level), Row(n, r - 1, 0);
    RowFirst(n, f + 1, level, f + r);
    RowFirst(n, r - 1, 0, 0);
    RowSum(n, n, f + 1, level);
    RowSum(n, n, r - 1, 0);
    hide SumTo, Reaches, Row;
    events := RaceStart(n, K, r, f, level);
    events := ScanFirst(n, K, r, events, a, p);
    events := GuardSome(n, K, r, events, State(a, p, [Scan(1, 0, f + 1)]), 0, r - 1);
  }

  /** The counters while the next backend is one short, and what they add up to. */
  lemma {:induction false} OneShort(n: nat, first: nat, level: nat, j: nat)
    requires 1 <= j < n && 1 <= level < first
    ensures var low := Row(n, first, level)[j := level - 1];
            LC.IsFirstMin(low, n, j) && SumTo(low, n) == first + (n - 1) * level - 1
    ensures Row(n, first, level)[j] == level && SumTo(Row(n, 0, 0), n) == 0 && Row(n, 0, 0)[j] == 0
  {
    RowSum(n, n, first, level);
    RowSum(n, n, 0, 0);
    SumToUpdate(Row(n, first, level), n, j, level - 1);
  }

  /** Backend j loses a connection, m new requests choose it and take their guards. */
  lemma {:induction false} Refill(n: nat, K: nat, r: nat, events: seq<Event>, s: State, j: nat, m: nat)
    returns (events': seq<Event>)
    requires n > 0 && K <= USIZE_MAX && j < n && Reaches(n, K, r, events, s) && s.active[j] > 0 && s.pending[j] == 0
    requires var low := s.active[j := s.active[j] - 1];
             LC.IsFirstMin(low, n, j) && SumTo(low, n) + Unguarded(n, s) + m <= K && Unguarded(n, s) + m <= r
    ensures Reaches(n, K, r, events', s.(active := s.active[j := s.active[j] - 1 + m]))
  {
    var low, more := s.active[j := s.active[j] - 1], s.pending[j := m];
    hide SumTo, Reaches, LC.IsFirstMin;
    events' := DropTo(n, K, r, events, s, low);
    events' := ChooseSome(n, K, r, events', s.(active := low), j, m);
    events' := GuardSome(n, K, r, events', s.(active := low, pending := more), j, m);
    assert low[j := low[j] + m] == s.active[j := s.active[j] - 1 + m] && more[j := 0] == s.pending;
  }

  /** So the next backend comes to stand at f + 1. */
  lemma {:induction false} RaceRound(n: nat, K: nat, r: nat, f: nat, level: nat, events: seq<Event>, j: nat)
    returns (events': seq<Event>)
    requires Room(n, K, r, f, level) && 1 <= j < n && Reaches(n, K, r, events, Moment(n, r, f, level, j))
    ensures Reaches(n, K, r, events', Aloft(n, r, f, level, j))
  {
    OneShort(n, f + r, level, j);
    assert Shaped(n, Moment(n, r, f, level, j));
    hide SumTo, Reaches, Row, LC.IsFirstMin;
    events' := Refill(n, K, r, events, Moment(n, r, f, level, j), j, f + 2 - level);
  }

  /** The old scan, which holds the first backend at h, passes position j, which then goes down again. */
  lemma {:induction false} RaceOnward(n: nat, K: nat, r: nat, events: seq<Event>, a: seq<nat>, p: seq<nat>, h: nat,
                                      j: nat)
    returns (events': seq<Event>)
    requires 1 <= j && j + 1 < n && |a| == n && a[j] <= h
    requires Reaches(n, K, r, events, State(a[j := h], p, [Scan(j, 0, h)]))
    ensures Reaches(n, K, r, events', State(a, p, [Scan(j + 1, 0, h)]))
  {
    var s := State(a[j := h], p, [Scan(j, 0, h)]);
    var t := State(a[j := h], p, [Scan(j + 1, 0, h)]);
    hide Run, Within;
    ReadStays(n, events, 0, K, r);
    assert Apply(n, s, Read(0)) == t;
    events' := DropTo(n, K, r, events + [Read(0)], t, a);
  }

  lemma {:induction false} RacePasses(n: nat, K: nat, r: nat, f: nat, level: nat, j: nat) returns (events: seq<Event>)
    requires Room(n, K, r, f, level) && 1 <= j < n
    ensures Reaches(n, K, r, events, Moment(n, r, f, level, j))
  {
    if j == 1 {
      events := RaceBegins(n, K, r, f, level);
    } else {
      RowAt(n, f + r, level, j - 1);
      hide Reaches, Row, SumTo;
      events := RacePasses(n, K, r, f, level, j - 1);
      events := RaceRound(n, K, r, f, level, events, j - 1);
      events := RaceOnward(n, K, r, events, Row(n, f + r, level), Row(n, 0, 0), f + 1, j - 1);
    }
  }

  /** The old scan has found nothing below f + 1 anywhere, and chooses the backend that stands at the ceiling. */
  lemma {:induction false} RaceBreaksCeiling(n: nat, K: nat, r: nat, d: nat) returns (events: seq<Event>)
    requires RaceOn(n, K, r, d)
    ensures Within(n, events, K, r)
    ensures Run(n, events).active[0] + Run(n, events).pending[0] == LC.Ceiling(n, K, r) + 1
  {
    var f := (K - r) / n;
    RaceRoom(n, K, r, d);
    events := RacePasses(n, K, r, f, f + 1 - d, n - 1);
    events := RaceRound(n, K, r, f, f + 1 - d, events, n - 1);
    hide Run, Within;
    ReadStays(n, events, 0, K, r);
    events := events + [Read(0)];
  }

  /** No run within these limits gives a backend more than the ceiling. */
  ghost predicate CeilingHolds(n: nat, K: nat, r: nat)
    requires n > 0 && r <= K
  {
    forall events, b | Within(n, events, K, r) && 0 <= b < n ::
      Run(n, events).active[b] + Run(n, events).pending[b] <= LC.Ceiling(n, K, r)
  }

  /** The ceiling fails wherever a race is on. */
  lemma {:induction false} CeilingFails(n: nat, K: nat, r: nat, d: nat)
    requires RaceOn(n, K, r, d)
    ensures !CeilingHolds(n, K, r)
  {
    hide Within, Run, LC.Ceiling;
    var events := RaceBreaksCeiling(n, K, r, d);
  }

  /** With three or more backends and r of at least 3 a race is on wherever K - r is m * n - 1 for an m of 2 or more. */
  lemma {:induction false} RaceIsOnAt(n: nat, m: nat, r: nat)
    requires n >= 3 && r >= 3 && m >= 2 && m * n - 1 + r <= USIZE_MAX
    ensures RaceOn(n, m * n - 1 + r, r, 1)
  {
    Distribute(n, m, 1);
    ProductOrder(n, 1, m);
    DivisionIs(m * n - 1, n, m - 1, n - 1);
  }

  /** For every number of requests the ceiling survives races exactly with at most two backends or r of at most 2. */
  lemma {:induction false} CeilingHoldsIff(n: nat, r: nat)
    requires n > 0 && r > 0 && 2 * n - 1 + r <= USIZE_MAX
    ensures (forall K: nat | r <= K <= USIZE_MAX :: CeilingHolds(n, K, r)) <==> n <= 2 || r <= 2
  {
    hide Within, Run, LC.Ceiling;
    if n <= 2 || r <= 2 {
      forall K: nat, events, b | r <= K <= USIZE_MAX && Within(n, events, K, r) && 0 <= b < n
        ensures Run(n, events).active[b] + Run(n, events).pending[b] <= LC.Ceiling(n, K, r)
      {
        ScanCeiling(n, events, K, r, b);
      }
    } else {
      RaceIsOnAt(n, 2, r);
      CeilingFails(n, 2 * n - 1 + r, r, 1);
    }
  }
}
