/**
 The load ceiling of Least Connections on the request machine itself: while every backend stays healthy, each
 step of any interleaving of requests is a step of the load model of LeastConnections, or none.
 */
module LoadInService {
  import opened Backends
  import opened BackendPools
  import opened RequestLifecycle
  import opened Sums
  import opened Words
  import LC = LeastConnections

  /** The snapshot of a pool in which every backend is healthy. */
  function Everyone(n: nat): (all: seq<nat>) {
    seq(n, i => i)
  }

  lemma {:induction false} AllHealthy(n: nat)
    ensures HealthyPositions(seq(n, _ => true)) == Everyone(n)
  {
    if n > 0 {
      AllHealthy(n - 1);
      assert seq(n, _ => true)[..n - 1] == seq(n - 1, _ => true);
    }
  }

  /** The request has selected backend b and holds no guard yet. */
  ghost function AwaitsOn(b: nat): Request -> bool {
    (r: Request) => r.Chosen? && r.index < |r.snapshot| && r.snapshot[r.index] == b
  }

  ghost predicate SeesAll(n: nat, r: Request) {
    match r
    case Arrived => true
    case Ended(_) => true
    case Holding(snapshot) => snapshot == Everyone(n)
    case _ => r.snapshot == Everyone(n) && r.index < n
  }

  /** Counters are exact, no mark is under way, and all snapshots show every backend. */
  ghost predicate InService(n: nat, s: State) {
    && s.writer.Idle? && s.cache == Everyone(n) && |s.active| == n
    && (forall k | 0 <= k < |s.requests| :: SeesAll(n, s.requests[k]))
    && forall b | 0 <= b < n :: s.active[b] == LiveGuards(s.requests, b)
  }

  ghost function Guards(): nat -> Request -> bool {
    (b: nat) => GuardOn(b)
  }

  ghost function Awaits(): nat -> Request -> bool {
    (b: nat) => AwaitsOn(b)
  }

  /** For every backend b, how many of the first m requests have property p(b). */
  ghost function PerBackend(n: nat, requests: seq<Request>, m: nat, p: nat -> Request -> bool): (c: seq<nat>)
    requires m <= |requests|
    ensures |c| == n && forall b | 0 <= b < n :: c[b] == CountOf(requests, m, p(b))
  {
    if n == 0 then [] else PerBackend(n - 1, requests, m, p) + [CountOf(requests, m, p(n - 1))]
  }

  /** The load of every backend: live guards, and requests selected for it that hold none yet. */
  ghost function LoadOf(n: nat, s: State): (l: LC.Load)
    ensures |l.active| == |l.pending| == n
  {
    LC.Load(PerBackend(n, s.requests, |s.requests|, Guards()), PerBackend(n, s.requests, |s.requests|, Awaits()))
  }

  lemma {:induction false} LoadAt(n: nat, s: State, b: nat)
    requires b < n
    ensures LoadOf(n, s).active[b] == LiveGuards(s.requests, b)
    ensures LoadOf(n, s).pending[b] == CountOf(s.requests, |s.requests|, AwaitsOn(b))
  {
    assert Guards()(b) == GuardOn(b) && Awaits()(b) == AwaitsOn(b);
  }

  /** The load event that a step of a request is, if any. */
  ghost function Meaning(r: Request, e: Event): Option<LC.Event> {
    match (e, r)
    case (Select(_, index), Holding(snapshot)) => if index < |snapshot| then Some(LC.Choose) else None
    case (TakeGuard(_), Chosen(_, i)) => Some(LC.TakeGuard(i))
    case (RejectUri(_), Chosen(_, i)) => Some(LC.TurnAway(i))
    case (Panic(_), Chosen(_, i)) => Some(LC.TurnAway(i))
    case (Release(_), Leaving(_, i, _)) => Some(LC.DropGuard(i))
    case _ => None
  }

  /** How a step of a request moves the two counts of backend b. */
  lemma {:induction false} StepMoves(n: nat, cache: seq<nat>, r: Request, e: Event, b: nat)
    requires SeesAll(n, r) && b < n && cache == Everyone(n)
    ensures var r' := RequestStep(cache, r, e).0;
            var guards := (if GuardOn(b)(r') then 1 else 0) - (if GuardOn(b)(r) then 1 else 0);
            var awaits := (if AwaitsOn(b)(r') then 1 else 0) - (if AwaitsOn(b)(r) then 1 else 0);
            && SeesAll(n, r')
            && match Meaning(r, e)
               case None => guards == 0 && awaits == 0
               case Some(Choose) => guards == 0 && awaits == if e.index == b then 1 else 0
               case Some(TakeGuard(i)) => AwaitsOn(i)(r) && guards == (if i == b then 1 else 0) && awaits == -guards
               case Some(TurnAway(i)) => AwaitsOn(i)(r) && guards == 0 && awaits == if i == b then -1 else 0
               case Some(DropGuard(i)) => GuardOn(i)(r) && guards == (if i == b then -1 else 0) && awaits == 0
  {
  }

  /** Events of this run: no marks, and every selection takes the first backend with the fewest connections. */
  ghost predicate LeastFirst(n: nat, s: State, e: Event) {
    && !e.Mark?
    && (e.Select? && e.k < |s.requests| && s.requests[e.k].Holding? ==>
          0 < n == |s.active| && e.index == LC.FirstMin(s.active, n))
  }

  ghost function Moved(n: nat, l: LC.Load, f: Option<LC.Event>): (l': LC.Load)
    requires LC.Shaped(n, l)
    ensures LC.Shaped(n, l')
  {
    if f.Some? then LC.Apply(n, l, f.value) else l
  }

  /** A step of request k moves the load of a backend by what that request alone contributes. */
  lemma {:induction false} LoadMoves(n: nat, s: State, k: nat, r: Request, active: seq<nat>, b: nat)
    requires b < n && k < |s.requests|
    ensures var l, l' := LoadOf(n, s), LoadOf(n, s.(requests := s.requests[k := r], active := active));
            && l'.active[b] as int - l.active[b]
               == (if GuardOn(b)(r) then 1 else 0) - (if GuardOn(b)(s.requests[k]) then 1 else 0)
            && l'.pending[b] as int - l.pending[b]
               == (if AwaitsOn(b)(r) then 1 else 0) - (if AwaitsOn(b)(s.requests[k]) then 1 else 0)
            && (GuardOn(b)(s.requests[k]) ==> l.active[b] > 0)
            && (AwaitsOn(b)(s.requests[k]) ==> l.pending[b] > 0)
  {
    hide CountOf, GuardOn, AwaitsOn;
    var m := |s.requests|;
    LoadAt(n, s, b);
    LoadAt(n, s.(requests := s.requests[k := r], active := active), b);
    CountOfUpdate(s.requests, m, GuardOn(b), k, r);
    CountOfUpdate(s.requests, m, AwaitsOn(b), k, r);
    if AwaitsOn(b)(s.requests[k]) {
      CountOfSome(s.requests, m, AwaitsOn(b), k);
    }
    if GuardOn(b)(s.requests[k]) {
      CountOfSome(s.requests, m, GuardOn(b), k);
    }
  }

  /** The counters a selection reads are the live guards of the load. */
  lemma {:induction false} CountersAreLoad(n: nat, s: State)
    requires InService(n, s)
    ensures s.active == LoadOf(n, s).active
  {
    forall b | 0 <= b < n ensures s.active[b] == LoadOf(n, s).active[b] {
      LoadAt(n, s, b);
    }
  }

  lemma {:induction false} StepIsLoadStepAt(n: nat, s: State, e: Event, b: nat)
    requires b < n && InService(n, s) && LeastFirst(n, s, e)
    requires !e.Mark? && !e.Scan? && !e.Install? && !e.Arrive? && e.k < |s.requests|
    ensures var l, l' := LoadOf(n, Apply(s, e)), Moved(n, LoadOf(n, s), Meaning(s.requests[e.k], e));
            l.active[b] == l'.active[b] && l.pending[b] == l'.pending[b]
  {
    var r := s.requests[e.k];
    var (r', change) := RequestStep(s.cache, r, e);
    CountersAreLoad(n, s);
    assert SeesAll(n, r);
    hide RequestStep, GuardOn, AwaitsOn, SeesAll, LoadOf, Count;
    StepMoves(n, s.cache, r, e, b);
    LoadMoves(n, s, e.k, r', Count(s.active, change), b);
  }

  /** Each step of a request is the load event it means. */
  lemma {:induction false} StepIsLoadStep(n: nat, s: State, e: Event)
    requires n > 0 && InService(n, s) && LeastFirst(n, s, e)
    requires !e.Mark? && !e.Scan? && !e.Install? && !e.Arrive? && e.k < |s.requests|
    ensures LoadOf(n, Apply(s, e)) == Moved(n, LoadOf(n, s), Meaning(s.requests[e.k], e))
  {
    hide LoadOf, Moved, InService, Apply;
    var l, l' := LoadOf(n, Apply(s, e)), Moved(n, LoadOf(n, s), Meaning(s.requests[e.k], e));
    forall b | 0 <= b < n ensures l.active[b] == l'.active[b] && l.pending[b] == l'.pending[b] {
      StepIsLoadStepAt(n, s, e, b);
    }
    assert l.active == l'.active && l.pending == l'.pending;
  }

  /** An arrival changes no load. */
  lemma {:induction false} ArrivalIsNoLoad(n: nat, s: State)
    ensures LoadOf(n, Apply(s, Arrive)) == LoadOf(n, s)
  {
    forall b | 0 <= b < n
      ensures LiveGuards(s.requests + [Arrived], b) == LiveGuards(s.requests, b)
      ensures CountOf(s.requests + [Arrived], |s.requests| + 1, AwaitsOn(b))
           == CountOf(s.requests, |s.requests|, AwaitsOn(b))
    {
      ArrivalHoldsNothing(s.requests, b);
      CountOfPrefix(s.requests, s.requests + [Arrived], |s.requests|, AwaitsOn(b));
    }
    forall b | 0 <= b < n
      ensures LoadOf(n, Apply(s, Arrive)).active[b] == LoadOf(n, s).active[b]
      ensures LoadOf(n, Apply(s, Arrive)).pending[b] == LoadOf(n, s).pending[b]
    {
      LoadAt(n, s, b);
      LoadAt(n, Apply(s, Arrive), b);
    }
    assert LoadOf(n, Apply(s, Arrive)).active == LoadOf(n, s).active;
    assert LoadOf(n, Apply(s, Arrive)).pending == LoadOf(n, s).pending;
  }

  // ---------- Whole runs ----------

  /** In flight: selected, and not yet ended. */
  ghost function InFlight(): Request -> bool {
    (r: Request) => r.Chosen? || r.Waiting? || r.Leaving?
  }

  ghost function Unguarded(): Request -> bool {
    (r: Request) => r.Chosen?
  }

  /**
   A run in which every backend stays healthy, selections are Least Connections', and at every moment at most K
   requests are in flight, at most r of them without a guard. Any number of requests may have come and gone.
   */
  ghost predicate Serving(n: nat, events: seq<Event>, K: nat, r: nat) {
    var s := Run(n, events);
    && CountOf(s.requests, |s.requests|, InFlight()) <= K
    && CountOf(s.requests, |s.requests|, Unguarded()) <= r
    && (|events| > 0 ==>
          Serving(n, events[..|events| - 1], K, r)
          && LeastFirst(n, Run(n, events[..|events| - 1]), events[|events| - 1]))
  }

  lemma {:induction false} NothingCounted(n: nat, requests: seq<Request>, p: nat -> Request -> bool)
    ensures SumTo(PerBackend(n, requests, 0, p), n) == 0
  {
    var counts := PerBackend(n, requests, 0, p);
    forall b | 0 <= b < n ensures counts[b] == 0 {
      assert counts[b] == CountOf(requests, 0, p(b));
    }
    hide PerBackend;
    SumToAtLeast(counts, n, 0);
    SumToAtMost(counts, n, 0);
  }

  /** One more request adds one to the count of the backend it belongs to, if any. */
  lemma {:induction false} OneMoreCounted(n: nat, requests: seq<Request>, m: nat, p: nat -> Request -> bool,
                                          i: Option<nat>)
    requires m < |requests| && (i.Some? ==> i.value < n)
    requires forall b | 0 <= b < n :: p(b)(requests[m]) <==> i == Some(b)
    ensures SumTo(PerBackend(n, requests, m + 1, p), n)
         == SumTo(PerBackend(n, requests, m, p), n) + if i.Some? then 1 else 0
  {
    var before, after := PerBackend(n, requests, m, p), PerBackend(n, requests, m + 1, p);
    forall b | 0 <= b < n ensures after[b] == before[b] + if i == Some(b) then 1 else 0 {
      assert after[b] == CountOf(requests, m + 1, p(b)) && before[b] == CountOf(requests, m, p(b));
    }
    hide PerBackend, CountOf;
    if i.Some? {
      assert after == before[i.value := before[i.value] + 1];
      SumToUpdate(before, n, i.value, before[i.value] + 1);
    } else {
      assert after == before;
    }
  }

  /** Counting requests backend by backend counts each of them once. */
  lemma {:induction false} SumOfCounts(n: nat, requests: seq<Request>, m: nat,
                                       p: nat -> Request -> bool, q: Request -> bool, at: Request -> nat)
    requires m <= |requests|
    requires forall k | 0 <= k < m :: q(requests[k]) ==> at(requests[k]) < n
    requires forall k, b | 0 <= k < m && 0 <= b < n :: p(b)(requests[k]) <==> q(requests[k]) && at(requests[k]) == b
    ensures SumTo(PerBackend(n, requests, m, p), n) == CountOf(requests, m, q)
  {
    hide PerBackend, SumTo;
    if m == 0 {
      NothingCounted(n, requests, p);
    } else {
      SumOfCounts(n, requests, m - 1, p, q, at);
      var r := requests[m - 1];
      OneMoreCounted(n, requests, m - 1, p, if q(r) then Some(at(r)) else None);
    }
  }

  ghost function Position(): Request -> nat {
    (r: Request) => if r.Chosen? || r.Waiting? || r.Leaving? then r.index else 0
  }

  ghost function Guarding(): Request -> bool {
    (r: Request) => r.Waiting? || r.Leaving?
  }

  lemma {:induction false} CountsAdd(requests: seq<Request>, m: nat)
    requires m <= |requests|
    ensures CountOf(requests, m, InFlight()) == CountOf(requests, m, Guarding()) + CountOf(requests, m, Unguarded())
  {
    if m > 0 {
      CountsAdd(requests, m - 1);
    }
  }

  /** Guards and selections, summed over the backends, are the requests in flight. */
  lemma {:induction false} LoadSums(n: nat, s: State)
    requires n > 0 && forall k | 0 <= k < |s.requests| :: SeesAll(n, s.requests[k])
    ensures SumTo(LoadOf(n, s).pending, n) == CountOf(s.requests, |s.requests|, Unguarded())
    ensures SumTo(LoadOf(n, s).active, n) + SumTo(LoadOf(n, s).pending, n)
         == CountOf(s.requests, |s.requests|, InFlight())
  {
    var m := |s.requests|;
    forall k, b | 0 <= k < m && 0 <= b < n
      ensures GuardOn(b)(s.requests[k]) <==> Guarding()(s.requests[k]) && Position()(s.requests[k]) == b
      ensures AwaitsOn(b)(s.requests[k]) <==> Unguarded()(s.requests[k]) && Position()(s.requests[k]) == b
    {
      assert SeesAll(n, s.requests[k]);
    }
    forall k | 0 <= k < m
      ensures Guarding()(s.requests[k]) || Unguarded()(s.requests[k]) ==> Position()(s.requests[k]) < n
    {
      assert SeesAll(n, s.requests[k]);
    }
    hide CountOf, SeesAll, PerBackend;
    SumOfCounts(n, s.requests, m, Guards(), Guarding(), Position());
    SumOfCounts(n, s.requests, m, Awaits(), Unguarded(), Position());
    CountsAdd(s.requests, m);
  }

  /** The limits on requests are the limits of the load model. */
  lemma {:induction false} LimitsCarryOver(n: nat, s: State, K: nat, r: nat)
    requires n > 0 && forall k | 0 <= k < |s.requests| :: SeesAll(n, s.requests[k])
    ensures LC.Limits(n, LoadOf(n, s), K, r)
       <==> CountOf(s.requests, |s.requests|, InFlight()) <= K && CountOf(s.requests, |s.requests|, Unguarded()) <= r
  {
    hide CountOf, SeesAll, PerBackend, LoadOf;
    LoadSums(n, s);
  }

  lemma {:induction false} GuardsAreInFlight(requests: seq<Request>, m: nat, b: nat)
    requires m <= |requests|
    ensures CountOf(requests, m, GuardOn(b)) <= CountOf(requests, m, InFlight())
  {
    if m > 0 {
      GuardsAreInFlight(requests, m - 1, b);
    }
  }

  lemma {:induction false} StaysInService(n: nat, events: seq<Event>, K: nat, r: nat)
    requires K < TWO_64 && Serving(n, events, K, r)
    ensures InService(n, Run(n, events))
  {
    hide Apply, CountOf;
    if |events| == 0 {
      AllHealthy(n);
      StartInService(n);
    } else {
      var before, e := events[..|events| - 1], events[|events| - 1];
      StaysInService(n, before, K, r);
      StepInService(n, Run(n, before), e);
      forall b | 0 <= b < n ensures Run(n, events).active[b] == LiveGuards(Run(n, events).requests, b) {
        ExactCounters(n, events, b);
        GuardsAreInFlight(Run(n, events).requests, |Run(n, events).requests|, b);
      }
    }
  }

  lemma {:induction false} StartInService(n: nat)
    requires HealthyPositions(seq(n, _ => true)) == Everyone(n)
    ensures InService(n, Start(n))
  {
  }

  lemma {:induction false} StepInService(n: nat, s: State, e: Event)
    requires InService(n, s) && !e.Mark?
    ensures var s' := Apply(s, e);
            && s'.writer.Idle? && s'.cache == Everyone(n) && |s'.active| == n
            && forall k | 0 <= k < |s'.requests| :: SeesAll(n, s'.requests[k])
  {
    if !e.Arrive? && !e.Scan? && !e.Install? && e.k < |s.requests| {
      PlacedStep(n, s.cache, s.requests[e.k], e);
    }
  }

  lemma {:induction false} PlacedStep(n: nat, cache: seq<nat>, r: Request, e: Event)
    requires SeesAll(n, r) && cache == Everyone(n)
    ensures SeesAll(n, RequestStep(cache, r, e).0)
  {
  }

  lemma {:induction false} NoRequestsNoLoad(n: nat, s: State, b: nat)
    requires b < n && |s.requests| == 0
    ensures LoadOf(n, s).active[b] == 0 && LoadOf(n, s).pending[b] == 0
  {
    LoadAt(n, s, b);
  }

  lemma {:induction false} ServiceStep(n: nat, s: State, e: Event, K: nat, r: nat, b: nat)
    requires b < n && 1 <= r <= K && InService(n, s) && LeastFirst(n, s, e)
    requires LC.Limits(n, LoadOf(n, Apply(s, e)), K, r)
    requires LoadOf(n, s).active[b] + LoadOf(n, s).pending[b] <= LC.Ceiling(n, K, r)
    ensures LoadOf(n, Apply(s, e)).active[b] + LoadOf(n, Apply(s, e)).pending[b] <= LC.Ceiling(n, K, r)
  {
    hide LoadOf, LC.Limits, LC.Apply, LC.Ceiling;
    if e.Arrive? {
      ArrivalIsNoLoad(n, s);
    } else if !e.Scan? && !e.Install? && e.k < |s.requests| {
      StepIsLoadStep(n, s, e);
      var f := Meaning(s.requests[e.k], e);
      if f.Some? {
        LC.CeilingKept(n, LoadOf(n, s), f.value, K, r, b);
      }
    }
  }

  /** Along every such run no backend is given more than floor((K - r) / n) + r requests. */
  lemma {:induction false} ServiceLoadBound(n: nat, events: seq<Event>, K: nat, r: nat, b: nat)
    requires b < n && 1 <= r <= K < TWO_64 && Serving(n, events, K, r)
    ensures var s := Run(n, events);
            && |s.active| == n && s.active[b] == LoadOf(n, s).active[b]
            && s.active[b] + CountOf(s.requests, |s.requests|, AwaitsOn(b)) <= LC.Ceiling(n, K, r)
    decreases |events|
  {
    var s := Run(n, events);
    StaysInService(n, events, K, r);
    LimitsCarryOver(n, s, K, r);
    if |events| == 0 {
      NoRequestsNoLoad(n, s, b);
    } else {
      hide CountOf, RequestStep, InService, LoadOf, Apply, LeastFirst, LC.Limits;
      var before, e := events[..|events| - 1], events[|events| - 1];
      var s0 := Run(n, before);
      ServiceLoadBound(n, before, K, r, b);
      StaysInService(n, before, K, r);
      ServiceStep(n, s0, e, K, r, b);
    }
  }

  // ---------- The ceiling is reached ----------

  lemma {:induction false} ExtendService(n: nat, events: seq<Event>, e: Event, K: nat, r: nat)
    requires n > 0 && K < TWO_64 && Serving(n, events, K, r) && LeastFirst(n, Run(n, events), e)
    requires LC.Limits(n, LoadOf(n, Apply(Run(n, events), e)), K, r)
    ensures Serving(n, events + [e], K, r) && Run(n, events + [e]) == Apply(Run(n, events), e)
  {
    assert !e.Mark?;
    hide CountOf, Apply, InService, LoadOf, SeesAll, LC.Limits, LeastFirst;
    assert (events + [e])[..|events|] == events;
    var s' := Apply(Run(n, events), e);
    StaysInService(n, events, K, r);
    StepInService(n, Run(n, events), e);
    LimitsCarryOver(n, s', K, r);
  }

  /** A step of a request that stays within the limits prolongs the run by the load event it means. */
  lemma {:induction false} TakeStep(n: nat, events: seq<Event>, e: Event, K: nat, r: nat)
    requires n > 0 && K < TWO_64 && Serving(n, events, K, r) && LeastFirst(n, Run(n, events), e)
    requires !e.Mark? && !e.Scan? && !e.Install? && !e.Arrive? && e.k < |Run(n, events).requests|
    requires LC.Limits(n, Moved(n, LoadOf(n, Run(n, events)), Meaning(Run(n, events).requests[e.k], e)), K, r)
    ensures Serving(n, events + [e], K, r) && Run(n, events + [e]) == Apply(Run(n, events), e)
    ensures LoadOf(n, Run(n, events + [e]))
         == Moved(n, LoadOf(n, Run(n, events)), Meaning(Run(n, events).requests[e.k], e))
  {
    hide Apply, InService, LoadOf, LC.Limits, LeastFirst, Serving, Run, Meaning, Moved;
    StaysInService(n, events, K, r);
    StepIsLoadStep(n, Run(n, events), e);
    ExtendService(n, events, e, K, r);
  }

  lemma {:induction false} LimitsNow(n: nat, events: seq<Event>, K: nat, r: nat)
    requires n > 0 && K < TWO_64 && Serving(n, events, K, r)
    ensures InService(n, Run(n, events)) && LC.Limits(n, LoadOf(n, Run(n, events)), K, r)
  {
    StaysInService(n, events, K, r);
    LimitsCarryOver(n, Run(n, events), K, r);
  }

  /** A new request arrives, takes its snapshot and selects. */
  lemma {:induction false} ChooseInService(n: nat, events: seq<Event>, K: nat, r: nat) returns (events': seq<Event>)
    requires n > 0 && K < TWO_64 && Serving(n, events, K, r)
    requires LC.Limits(n, LC.Apply(n, LoadOf(n, Run(n, events)), LC.Choose), K, r)
    ensures Serving(n, events', K, r)
    ensures LoadOf(n, Run(n, events')) == LC.Apply(n, LoadOf(n, Run(n, events)), LC.Choose)
  {
    hide LoadOf, LC.Limits, Serving, Run, LC.Apply;
    var s, k := Run(n, events), |Run(n, events).requests|;
    LimitsNow(n, events, K, r);
    ArrivalIsNoLoad(n, s);
    ExtendService(n, events, Arrive, K, r);
    var one := events + [Arrive];
    LimitsNow(n, one, K, r);
    assert Run(n, one).requests[k] == Arrived;
    TakeStep(n, one, TakeSnapshot(k), K, r);
    var two := one + [TakeSnapshot(k)];
    LimitsNow(n, two, K, r);
    assert Run(n, two).requests[k] == Holding(Everyone(n));
    var e := Select(k, LC.FirstMin(Run(n, two).active, n));
    TakeStep(n, two, e, K, r);
    events' := two + [e];
  }

  /** A request that has selected backend b takes its guard or is turned away. */
  lemma {:induction false} LeaveInService(n: nat, events: seq<Event>, b: nat, guard: bool, K: nat, r: nat)
    returns (events': seq<Event>)
    requires b < n && K < TWO_64 && Serving(n, events, K, r) && LoadOf(n, Run(n, events)).pending[b] > 0
    requires var f := if guard then LC.TakeGuard(b) else LC.TurnAway(b);
             LC.Limits(n, LC.Apply(n, LoadOf(n, Run(n, events)), f), K, r)
    ensures Serving(n, events', K, r)
    ensures var f := if guard then LC.TakeGuard(b) else LC.TurnAway(b);
            LoadOf(n, Run(n, events')) == LC.Apply(n, LoadOf(n, Run(n, events)), f)
  {
    hide LoadOf, LC.Limits, Serving, Run, LC.Apply, CountOf;
    var s := Run(n, events);
    LimitsNow(n, events, K, r);
    LoadAt(n, s, b);
    var k := CountOfWitness(s.requests, |s.requests|, AwaitsOn(b));
    assert SeesAll(n, s.requests[k]);
    var e := if guard then TakeGuard(k) else RejectUri(k);
    TakeStep(n, events, e, K, r);
    events' := events + [e];
  }

  /** A request that holds a guard of backend b finishes and drops it. */
  lemma {:induction false} DropInService(n: nat, events: seq<Event>, b: nat, K: nat, r: nat)
    returns (events': seq<Event>)
    requires b < n && K < TWO_64 && Serving(n, events, K, r) && LoadOf(n, Run(n, events)).active[b] > 0
    requires LC.Limits(n, LC.Apply(n, LoadOf(n, Run(n, events)), LC.DropGuard(b)), K, r)
    ensures Serving(n, events', K, r)
    ensures LoadOf(n, Run(n, events')) == LC.Apply(n, LoadOf(n, Run(n, events)), LC.DropGuard(b))
  {
    hide LoadOf, LC.Limits, Serving, Run, LC.Apply, CountOf;
    var s := Run(n, events);
    LimitsNow(n, events, K, r);
    LoadAt(n, s, b);
    var k := CountOfWitness(s.requests, |s.requests|, GuardOn(b));
    assert SeesAll(n, s.requests[k]);
    var done := events;
    if s.requests[k].Waiting? {
      TakeStep(n, events, Answer(k, Forwarded), K, r);
      done := events + [Answer(k, Forwarded)];
    }
    TakeStep(n, done, Release(k), K, r);
    events' := done + [Release(k)];
  }

  /** Every run of the load model is the load of some run of requests within the same limits. */
  lemma {:induction false} EveryLoadIsServed(n: nat, loads: seq<LC.Event>, K: nat, r: nat)
    returns (events: seq<Event>)
    requires n > 0 && K < TWO_64 && LC.Within(n, loads, K, r)
    ensures Serving(n, events, K, r) && LoadOf(n, Run(n, events)) == LC.Run(n, loads)
    decreases |loads|
  {
    hide LC.Limits, LC.Apply, CountOf, LoadOf;
    if |loads| == 0 {
      events := [];
      NothingServed(n, K, r);
    } else {
      var f := loads[|loads| - 1];
      events := EveryLoadIsServed(n, loads[..|loads| - 1], K, r);
      hide Serving, Run;
      events := ServeOne(n, events, f, K, r);
    }
  }

  lemma {:induction false} NothingServed(n: nat, K: nat, r: nat)
    requires n > 0
    ensures Serving(n, [], K, r) && LoadOf(n, Run(n, [])) == LC.NoLoad(n)
  {
    var l := LoadOf(n, Start(n));
    forall b | 0 <= b < n ensures l.active[b] == 0 && l.pending[b] == 0 {
      NoRequestsNoLoad(n, Start(n), b);
    }
    assert l.active == LC.NoLoad(n).active && l.pending == LC.NoLoad(n).pending;
  }

  lemma {:induction false} ServeOne(n: nat, events: seq<Event>, f: LC.Event, K: nat, r: nat)
    returns (events': seq<Event>)
    requires n > 0 && K < TWO_64 && Serving(n, events, K, r)
    requires LC.Limits(n, LC.Apply(n, LoadOf(n, Run(n, events)), f), K, r)
    ensures Serving(n, events', K, r) && LoadOf(n, Run(n, events')) == LC.Apply(n, LoadOf(n, Run(n, events)), f)
  {
    hide LC.Limits, LoadOf, Serving, Run;
    var l := LoadOf(n, Run(n, events));
    events' := events;
    match f {
      case Choose => events' := ChooseInService(n, events, K, r);
      case TakeGuard(b) => if b < n && l.pending[b] > 0 { events' := LeaveInService(n, events, b, true, K, r); }
      case TurnAway(b) => if b < n && l.pending[b] > 0 { events' := LeaveInService(n, events, b, false, K, r); }
      case DropGuard(b) => if b < n && l.active[b] > 0 { events' := DropInService(n, events, b, K, r); }
    }
  }

  /** For every n, K and r some interleaving of requests within the limits gives one backend exactly the ceiling. */
  lemma {:induction false} ServiceLoadBoundIsTight(n: nat, K: nat, r: nat) returns (events: seq<Event>, b: nat)
    requires n > 0 && 1 <= r <= K < TWO_64
    ensures b < n && Serving(n, events, K, r)
    ensures var s := Run(n, events);
            && |s.active| == n
            && s.active[b] + CountOf(s.requests, |s.requests|, AwaitsOn(b)) == LC.Ceiling(n, K, r)
  {
    var loads;
    loads, b := LC.LoadBoundIsTight(n, K, r);
    events := EveryLoadIsServed(n, loads, K, r);
    StaysInService(n, events, K, r);
    LoadAt(n, Run(n, events), b);
  }

  /** No interleaving of requests within the limits gives a backend more than K / n rounded up. */
  ghost predicate ServesEvenly(n: nat, K: nat, r: nat)
    requires n > 0
  {
    forall events, b | Serving(n, events, K, r) && 0 <= b < n && |Run(n, events).active| == n ::
      var s := Run(n, events);
      s.active[b] + CountOf(s.requests, |s.requests|, AwaitsOn(b)) <= LC.EvenShare(n, K)
  }

  /** That is so exactly when (n - 1) * (r - 1) is at most the remainder of K - r by n. */
  lemma {:induction false} ServesEvenlyIff(n: nat, K: nat, r: nat)
    requires n > 0 && 1 <= r <= K < TWO_64
    ensures ServesEvenly(n, K, r) <==> (n - 1) * (r - 1) <= (K - r) % n
  {
    hide Run, Serving, CountOf, LC.Ceiling, LC.EvenShare, AwaitsOn;
    LC.CeilingIsEvenIff(n, K, r);
    if LC.Ceiling(n, K, r) <= LC.EvenShare(n, K) {
      forall events, b | Serving(n, events, K, r) && 0 <= b < n && |Run(n, events).active| == n
        ensures var s := Run(n, events);
                s.active[b] + CountOf(s.requests, |s.requests|, AwaitsOn(b)) <= LC.EvenShare(n, K)
      {
        ServiceLoadBound(n, events, K, r, b);
      }
    } else {
      var events, b := ServiceLoadBoundIsTight(n, K, r);
    }
  }
}
