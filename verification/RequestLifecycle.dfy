/**
 Requests, connection guards and the healthy cache as one machine of atomic steps: any number of requests
 interleave with each other and with the single health writer, and any request may fail at any point.
 */
module RequestLifecycle {
  import opened Arithmetic
  import opened Backends
  import opened BackendPools
  import opened Words

  datatype Outcome =
    | Forwarded | BadGateway | GatewayTimeout | ServiceUnavailable | BadRequest | Cancelled | Panicked

  /** A request holds its snapshot once taken; it holds a guard while Waiting and while Leaving. */
  datatype Request =
    | Arrived
    | Holding(snapshot: seq<nat>)
    | Chosen(snapshot: seq<nat>, index: nat)
    | Waiting(snapshot: seq<nat>, index: nat)
    | Leaving(snapshot: seq<nat>, index: nat, outcome: Outcome)
    | Ended(outcome: Outcome)

  /** The writer stores a flag, scans the flags one by one, and swaps the new list in. */
  datatype Writer = Idle | Scanning(target: nat, was: bool, scanned: nat, found: seq<nat>)

  /** Backends are positions; cache and snapshots are lists of positions. */
  datatype State = State(flags: seq<bool>, cache: seq<nat>, writer: Writer, active: seq<nat>, requests: seq<Request>)

  datatype Event =
    | Mark(target: nat, healthy: bool) | Scan | Install
    | Arrive | TakeSnapshot(k: nat) | Select(k: nat, index: nat) | RejectUri(k: nat) | TakeGuard(k: nat)
    | Answer(k: nat, outcome: Outcome) | Cancel(k: nat) | Panic(k: nat) | Release(k: nat)

  /** The backend whose guard the request holds is b. */
  predicate HoldsGuard(r: Request, b: nat) {
    (r.Waiting? || r.Leaving?) && r.index < |r.snapshot| && r.snapshot[r.index] == b
  }

  /** Every index a request carries is in range of its own snapshot, and every position is a backend. */
  ghost predicate RequestOk(n: nat, r: Request) {
    match r
    case Arrived => true
    case Ended(_) => true
    case Holding(snapshot) => forall j | 0 <= j < |snapshot| :: snapshot[j] < n
    case _ => (forall j | 0 <= j < |r.snapshot| :: r.snapshot[j] < n) && r.index < |r.snapshot|
  }

  ghost predicate StateOk(n: nat, s: State) {
    && |s.flags| == |s.active| == n
    && (forall j | 0 <= j < |s.cache| :: s.cache[j] < n)
    && (forall k | 0 <= k < |s.requests| :: RequestOk(n, s.requests[k]))
    && (s.writer.Scanning? ==>
          s.writer.target < n && s.writer.scanned <= n && forall j | 0 <= j < |s.writer.found| :: s.writer.found[j] < n)
  }

  /** The step of one request: its new phase, and the change of one counter: none, up or down. */
  datatype Change = Keep | Up(b: nat) | Down(b: nat)

  function RequestStep(cache: seq<nat>, r: Request, e: Event): (r': (Request, Change)) {
    match (e, r)
    case (TakeSnapshot(_), Arrived) => (Holding(cache), Keep)
    case (Select(_, index), Holding(snapshot)) =>
      if |snapshot| == 0 then (Ended(ServiceUnavailable), Keep)
      else if index < |snapshot| then (Chosen(snapshot, index), Keep)
      else (r, Keep)
    case (RejectUri(_), Chosen(_, _)) => (Ended(BadRequest), Keep)
    case (TakeGuard(_), Chosen(snapshot, index)) =>
      if index < |snapshot| then (Waiting(snapshot, index), Up(snapshot[index])) else (r, Keep)
    case (Answer(_, outcome), Waiting(snapshot, index)) =>
      if outcome in {Forwarded, BadGateway, GatewayTimeout} then (Leaving(snapshot, index, outcome), Keep)
      else (r, Keep)
    case (Cancel(_), Arrived) => (Ended(Cancelled), Keep)
    case (Cancel(_), Waiting(snapshot, index)) => (Leaving(snapshot, index, Cancelled), Keep)
    case (Panic(_), Arrived) => (Ended(Panicked), Keep)
    case (Panic(_), Holding(_)) => (Ended(Panicked), Keep)
    case (Panic(_), Chosen(_, _)) => (Ended(Panicked), Keep)
    case (Panic(_), Waiting(snapshot, index)) => (Leaving(snapshot, index, Panicked), Keep)
    case (Release(_), Leaving(snapshot, index, outcome)) =>
      if index < |snapshot| then (Ended(outcome), Down(snapshot[index])) else (r, Keep)
    case _ => (r, Keep)
  }

  /** The 64-bit counters after a change. */
  function Count(active: seq<nat>, c: Change): (active': seq<nat>)
    ensures |active'| == |active|
  {
    match c
    case Keep => active
    case Up(b) => if b < |active| then active[b := (active[b] + 1) % TWO_64] else active
    case Down(b) => if b < |active| then active[b := (active[b] + TWO_64 - 1) % TWO_64] else active
  }

  function WriterStep(s: State, e: Event): State {
    match e
    case Mark(target, healthy) =>
      if s.writer.Idle? && target < |s.flags| then
        s.(flags := s.flags[target := healthy], writer := Scanning(target, s.flags[target], 0, []))
      else s
    case Scan =>
      if s.writer.Scanning? && s.writer.scanned < |s.flags| then
        var i := s.writer.scanned;
        s.(writer := s.writer.(scanned := i + 1, found := s.writer.found + if s.flags[i] then [i] else []))
      else s
    case Install =>
      if s.writer.Scanning? && s.writer.scanned == |s.flags| then s.(cache := s.writer.found, writer := Idle) else s
    case _ => s
  }

  /** One event; an event that is not possible changes nothing. */
  function Apply(s: State, e: Event): State {
    match e
    case Mark(_, _) => WriterStep(s, e)
    case Scan => WriterStep(s, e)
    case Install => WriterStep(s, e)
    case Arrive => s.(requests := s.requests + [Arrived])
    case _ =>
      if e.k < |s.requests| then
        var (r, change) := RequestStep(s.cache, s.requests[e.k], e);
        s.(requests := s.requests[e.k := r], active := Count(s.active, change))
      else s
  }

  function Start(n: nat): State {
    var flags := seq(n, _ => true);
    State(flags, HealthyPositions(flags), Idle, seq(n, _ => 0), [])
  }

  function Run(n: nat, events: seq<Event>): State {
    if |events| == 0 then Start(n) else Apply(Run(n, events[..|events| - 1]), events[|events| - 1])
  }

  // ---------- Indices stay in range ----------

  lemma {:induction false} StaysOk(n: nat, s: State, e: Event)
    requires StateOk(n, s)
    ensures StateOk(n, Apply(s, e))
  {
    var s' := Apply(s, e);
    if !(e.Mark? || e.Scan? || e.Install? || e.Arrive?) && e.k < |s.requests| {
      RequestStaysOk(n, s.cache, s.requests[e.k], e);
    }
  }

  lemma {:induction false} RequestStaysOk(n: nat, cache: seq<nat>, r: Request, e: Event)
    requires RequestOk(n, r) && forall j | 0 <= j < |cache| :: cache[j] < n
    ensures RequestOk(n, RequestStep(cache, r, e).0)
  {
  }

  /** Whatever happens to the cache meanwhile, a request indexes within its own snapshot. */
  lemma {:induction false} RunIsOk(n: nat, events: seq<Event>)
    ensures StateOk(n, Run(n, events))
  {
    hide Apply, StateOk;
    if |events| == 0 {
      StartIsOk(n);
    } else {
      RunIsOk(n, events[..|events| - 1]);
      StaysOk(n, Run(n, events[..|events| - 1]), events[|events| - 1]);
    }
  }

  lemma {:induction false} StartIsOk(n: nat)
    ensures StateOk(n, Start(n))
  {
  }

  // ---------- Connection counters ----------

  /** How many of the first m requests have a property. */
  ghost function CountOf(requests: seq<Request>, m: nat, p: Request -> bool): (c: nat)
    requires m <= |requests|
    ensures c <= m
  {
    if m == 0 then 0 else CountOf(requests, m - 1, p) + if p(requests[m - 1]) then 1 else 0
  }

  ghost function GuardOn(b: nat): Request -> bool {
    (r: Request) => HoldsGuard(r, b)
  }

  /** The number of requests that hold a guard of backend b. */
  ghost function LiveGuards(requests: seq<Request>, b: nat): nat {
    CountOf(requests, |requests|, GuardOn(b))
  }

  lemma {:induction false} CountOfUpdate(requests: seq<Request>, m: nat, p: Request -> bool, k: nat, r: Request)
    requires k < m <= |requests|
    ensures CountOf(requests[k := r], m, p) + (if p(requests[k]) then 1 else 0)
         == CountOf(requests, m, p) + if p(r) then 1 else 0
  {
    if k < m - 1 {
      CountOfUpdate(requests, m - 1, p, k, r);
    } else {
      CountOfPrefix(requests, requests[k := r], m - 1, p);
    }
  }

  lemma {:induction false} CountOfPrefix(requests: seq<Request>, others: seq<Request>, m: nat, p: Request -> bool)
    requires m <= |requests| && m <= |others|
    requires forall k | 0 <= k < m :: requests[k] == others[k]
    ensures CountOf(requests, m, p) == CountOf(others, m, p)
  {
    if m > 0 {
      CountOfPrefix(requests, others, m - 1, p);
    }
  }

  lemma {:induction false} CountOfNone(requests: seq<Request>, m: nat, p: Request -> bool)
    requires m <= |requests| && forall k | 0 <= k < m :: !p(requests[k])
    ensures CountOf(requests, m, p) == 0
  {
    if m > 0 {
      CountOfNone(requests, m - 1, p);
    }
  }

  lemma {:induction false} CountOfSome(requests: seq<Request>, m: nat, p: Request -> bool, k: nat)
    requires k < m <= |requests| && p(requests[k])
    ensures CountOf(requests, m, p) >= 1
  {
    if k < m - 1 {
      CountOfSome(requests, m - 1, p, k);
    }
  }

  lemma {:induction false} CountOfWitness(requests: seq<Request>, m: nat, p: Request -> bool) returns (k: nat)
    requires m <= |requests| && CountOf(requests, m, p) > 0
    ensures k < m && p(requests[k])
  {
    if p(requests[m - 1]) {
      k := m - 1;
    } else {
      k := CountOfWitness(requests, m - 1, p);
    }
  }

  ghost predicate Counted(s: State) {
    forall b | 0 <= b < |s.active| :: s.active[b] == LiveGuards(s.requests, b) % TWO_64
  }

  /** A request's step moves a counter by exactly the change in the guards it holds. */
  lemma {:induction false} StepMovesItsGuard(cache: seq<nat>, r: Request, e: Event, b: nat)
    ensures var (r', change) := RequestStep(cache, r, e);
            && (change == Up(b) <==> !HoldsGuard(r, b) && HoldsGuard(r', b))
            && (change == Down(b) <==> HoldsGuard(r, b) && !HoldsGuard(r', b))
  {
  }

  lemma {:induction false} CountedStep(n: nat, s: State, e: Event)
    requires StateOk(n, s) && Counted(s)
    ensures Counted(Apply(s, e))
  {
    hide StateOk, LiveGuards, RequestStep, WriterStep;
    var s' := Apply(s, e);
    if e.Mark? || e.Scan? || e.Install? {
      WriterKeepsRequests(s, e);
    } else if e.Arrive? {
      forall b | 0 <= b < |s.active| ensures LiveGuards(s'.requests, b) == LiveGuards(s.requests, b) {
        ArrivalHoldsNothing(s.requests, b);
      }
    } else if e.k < |s.requests| {
      forall b | 0 <= b < |s.active| ensures s'.active[b] == LiveGuards(s'.requests, b) % TWO_64 {
        RequestCounted(s, e, b);
      }
    }
  }

  lemma {:induction false} WriterKeepsRequests(s: State, e: Event)
    ensures WriterStep(s, e).requests == s.requests && WriterStep(s, e).active == s.active
  {
  }

  lemma {:induction false} ArrivalHoldsNothing(requests: seq<Request>, b: nat)
    ensures LiveGuards(requests + [Arrived], b) == LiveGuards(requests, b)
  {
    CountOfPrefix(requests, requests + [Arrived], |requests|, GuardOn(b));
  }

  lemma {:induction false} RequestCounted(s: State, e: Event, b: nat)
    requires !(e.Mark? || e.Scan? || e.Install? || e.Arrive?) && e.k < |s.requests| && b < |s.active|
    requires s.active[b] == LiveGuards(s.requests, b) % TWO_64
    ensures Apply(s, e).active[b] == LiveGuards(Apply(s, e).requests, b) % TWO_64
  {
    hide CountOf, HoldsGuard, RequestStep;
    var (r, change) := RequestStep(s.cache, s.requests[e.k], e);
    var live := LiveGuards(s.requests, b);
    StepMovesItsGuard(s.cache, s.requests[e.k], e, b);
    CountOfUpdate(s.requests, |s.requests|, GuardOn(b), e.k, r);
    RemainderShift(live, TWO_64, 1);
    RemainderShift(live, TWO_64, TWO_64 - 1);
    if live > 0 {
      WholeTurn(live - 1);
    }
    CountAt(s.active, change, b);
  }

  lemma {:induction false} WholeTurn(x: int)
    ensures (x + TWO_64) % TWO_64 == x % TWO_64
  {
  }

  lemma {:induction false} CountAt(active: seq<nat>, c: Change, b: nat)
    requires b < |active|
    ensures Count(active, c)[b] ==
      if c == Up(b) then (active[b] + 1) % TWO_64
      else if c == Down(b) then (active[b] + TWO_64 - 1) % TWO_64
      else active[b]
  {
  }

  /** In every interleaving each counter is, modulo 2^64, the number of live guards of its backend. */
  lemma {:induction false} ConnectionConservation(n: nat, events: seq<Event>)
    ensures Counted(Run(n, events))
  {
    if |events| == 0 {
      assert forall b | 0 <= b < n :: Run(n, events).active[b] == 0;
    } else {
      hide Apply, Counted;
      var before := events[..|events| - 1];
      ConnectionConservation(n, before);
      RunIsOk(n, before);
      CountedStep(n, Run(n, before), events[|events| - 1]);
    }
  }

  /** A counter is exact as long as fewer than 2^64 guards are held at once, and zero once no guard is held. */
  lemma {:induction false} ExactCounters(n: nat, events: seq<Event>, b: nat)
    requires b < n
    ensures var s := Run(n, events);
            && |s.active| == n
            && (LiveGuards(s.requests, b) < TWO_64 ==> s.active[b] == LiveGuards(s.requests, b))
            && ((forall k | 0 <= k < |s.requests| :: !s.requests[k].Waiting? && !s.requests[k].Leaving?)
                ==> s.active[b] == 0)
  {
    var s := Run(n, events);
    hide Run;
    RunIsOk(n, events);
    ConnectionConservation(n, events);
    if forall k | 0 <= k < |s.requests| :: !s.requests[k].Waiting? && !s.requests[k].Leaving? {
      CountOfNone(s.requests, |s.requests|, GuardOn(b));
    }
  }

  /** Dropping a guard never takes a counter below zero: it lowers it by exactly one. */
  lemma {:induction false} ReleaseNeverUnderflows(n: nat, events: seq<Event>, k: nat)
    requires var s := Run(n, events); k < |s.requests| && s.requests[k].Leaving?
    ensures var s := Run(n, events);
            var r := s.requests[k];
            && r.index < |r.snapshot| && r.snapshot[r.index] < n == |s.active|
            && var b := r.snapshot[r.index];
               LiveGuards(s.requests, b) < TWO_64 ==>
                 s.active[b] >= 1 && Apply(s, Release(k)).active == s.active[b := s.active[b] - 1]
  {
    var s := Run(n, events);
    hide Run;
    RunIsOk(n, events);
    var r := s.requests[k];
    assert RequestOk(n, r);
    var b := r.snapshot[r.index];
    ConnectionConservation(n, events);
    CountOfSome(s.requests, |s.requests|, GuardOn(b), k);
  }

  // ---------- What an outcome says about the request ----------

  /** Some prefix of the events left request k in a phase with the property. */
  ghost predicate Visited(n: nat, events: seq<Event>, k: nat, phase: Request -> bool) {
    || (k < |Run(n, events).requests| && phase(Run(n, events).requests[k]))
    || (|events| > 0 && Visited(n, events[..|events| - 1], k, phase))
  }

  ghost function Guarded(): Request -> bool {
    (r: Request) => r.Waiting?
  }

  ghost function Placed(): Request -> bool {
    (r: Request) => r.Chosen?
  }

  ghost function Unplaceable(): Request -> bool {
    (r: Request) => r.Holding? && r.snapshot == []
  }

  /** What the phase of a request says about the phases it went through. */
  ghost predicate Explained(r: Request, guarded: bool, placed: bool, unplaceable: bool) {
    match r
    case Arrived => !guarded && !placed && !unplaceable
    case Holding(snapshot) => !guarded && !placed && (unplaceable <==> snapshot == [])
    case Chosen(_, _) => !guarded && placed && !unplaceable
    case Waiting(_, _) => guarded && placed && !unplaceable
    case Leaving(_, _, o) => guarded && placed && !unplaceable && o !in {ServiceUnavailable, BadRequest}
    case Ended(o) =>
      match o
      case ServiceUnavailable => !guarded && !placed && unplaceable
      case BadRequest => !guarded && placed
      case Cancelled => !unplaceable
      case Panicked => true
      case _ => guarded && placed && !unplaceable
  }

  /**
   A 503 is given exactly to requests whose snapshot was empty, a 400 only after a selection and without
   a guard, and a forwarded response, 502 or 504 only to requests that held a guard.
   */
  lemma {:induction false} OutcomesExplained(n: nat, events: seq<Event>, k: nat)
    requires k < |Run(n, events).requests|
    ensures Explained(Run(n, events).requests[k],
      Visited(n, events, k, Guarded()), Visited(n, events, k, Placed()), Visited(n, events, k, Unplaceable()))
  {
    hide RequestStep, Explained;
    if |events| > 0 {
      var before, e := events[..|events| - 1], events[|events| - 1];
      var s := Run(n, before);
      if k < |s.requests| {
        OutcomesExplained(n, before, k);
        StepExplained(s.cache, s.requests[k], e, Visited(n, before, k, Guarded()), Visited(n, before, k, Placed()),
                      Visited(n, before, k, Unplaceable()));
        if e.Arrive? || e.Mark? || e.Scan? || e.Install? || e.k != k {
          assert Run(n, events).requests[k] == s.requests[k];
        }
      } else {
        NotYetVisited(n, before, k, Guarded());
        NotYetVisited(n, before, k, Placed());
        NotYetVisited(n, before, k, Unplaceable());
        assert Run(n, events).requests[k] == Arrived;
        ArrivedExplained();
      }
    }
  }

  lemma {:induction false} ArrivedExplained()
    ensures Explained(Arrived, false, false, false)
  {
  }

  lemma {:induction false} RequestsOnlyGrow(s: State, e: Event)
    ensures |s.requests| <= |Apply(s, e).requests|
  {
  }

  lemma {:induction false} NotYetVisited(n: nat, events: seq<Event>, k: nat, phase: Request -> bool)
    requires |Run(n, events).requests| <= k
    ensures !Visited(n, events, k, phase)
  {
    hide Apply;
    if |events| > 0 {
      RequestsOnlyGrow(Run(n, events[..|events| - 1]), events[|events| - 1]);
      NotYetVisited(n, events[..|events| - 1], k, phase);
    }
  }

  lemma {:induction false} StepExplained(cache: seq<nat>, r: Request, e: Event, guarded: bool, placed: bool,
                                         unplaceable: bool)
    requires Explained(r, guarded, placed, unplaceable)
    ensures Explained(r, guarded || Guarded()(r), placed || Placed()(r), unplaceable || Unplaceable()(r))
    ensures var r' := RequestStep(cache, r, e).0;
            Explained(r', guarded || Guarded()(r'), placed || Placed()(r'), unplaceable || Unplaceable()(r'))
  {
  }

  // ---------- What becomes of a snapshot, a selection and an answer ----------

  /** What the events have told request k: the list it was handed, the index selected for it, and how it is to end. */
  datatype Journal = Journal(snapshot: Option<seq<nat>>, index: Option<nat>, end: Option<Outcome>)

  ghost function Told(j: Journal, s: State, e: Event, k: nat): Journal {
    if k >= |s.requests| || e.Mark? || e.Scan? || e.Install? || e.Arrive? || e.k != k then j else
    var r := s.requests[k];
    if e.TakeSnapshot? && r.Arrived? then j.(snapshot := Some(s.cache))
    else if e.Select? && r.Holding? && r.snapshot == [] then j.(end := Some(ServiceUnavailable))
    else if e.Select? && r.Holding? && e.index < |r.snapshot| then j.(index := Some(e.index))
    else if e.RejectUri? && r.Chosen? then j.(end := Some(BadRequest))
    else if e.Answer? && r.Waiting? && e.outcome in {Forwarded, BadGateway, GatewayTimeout} then
      j.(end := Some(e.outcome))
    else if e.Cancel? && (r.Arrived? || r.Waiting?) then j.(end := Some(Cancelled))
    else if e.Panic? && (r.Arrived? || r.Holding? || r.Chosen? || r.Waiting?) then j.(end := Some(Panicked))
    else j
  }

  ghost function JournalOf(n: nat, events: seq<Event>, k: nat): Journal {
    if |events| == 0 then Journal(None, None, None)
    else
      var before := events[..|events| - 1];
      Told(JournalOf(n, before, k), Run(n, before), events[|events| - 1], k)
  }

  /** The request holds exactly what it was told. */
  ghost predicate Remembers(r: Request, j: Journal) {
    match r
    case Arrived => j == Journal(None, None, None)
    case Holding(snapshot) => j == Journal(Some(snapshot), None, None)
    case Chosen(snapshot, index) => j == Journal(Some(snapshot), Some(index), None)
    case Waiting(snapshot, index) => j == Journal(Some(snapshot), Some(index), None)
    case Leaving(snapshot, index, outcome) => j == Journal(Some(snapshot), Some(index), Some(outcome))
    case Ended(outcome) => j.end == Some(outcome)
  }

  /**
   In every interleaving a request keeps the cached list as it was when it took it, the guard it takes is of the backend
   selected for it, and it ends as it was told: with 503 for an empty list, 400 for a URI that fails, the answer it was
   given, cancelled, or by a panic.
   */
  lemma {:induction false} RequestsRemember(n: nat, events: seq<Event>, k: nat)
    ensures k < |Run(n, events).requests| ==> Remembers(Run(n, events).requests[k], JournalOf(n, events, k))
    ensures k >= |Run(n, events).requests| ==> JournalOf(n, events, k) == Journal(None, None, None)
  {
    hide RequestStep, Remembers, Told;
    if |events| == 0 {
      assert Run(n, events).requests == [];
    } else {
      var before, e := events[..|events| - 1], events[|events| - 1];
      RequestsRemember(n, before, k);
      RemembersStep(Run(n, before), e, k, JournalOf(n, before, k));
    }
  }

  lemma {:induction false} RemembersStep(s: State, e: Event, k: nat, j: Journal)
    requires if k < |s.requests| then Remembers(s.requests[k], j) else j == Journal(None, None, None)
    ensures var s' := Apply(s, e);
            if k < |s'.requests| then Remembers(s'.requests[k], Told(j, s, e, k))
            else Told(j, s, e, k) == Journal(None, None, None)
  {
    hide Count, WriterStep;
    if e.Mark? || e.Scan? || e.Install? {
      WriterKeepsRequests(s, e);
    }
  }

  // ---------- What the flags are ----------

  /** What the last mark of b says that found the writer idle; up if there was none. */
  ghost function LastMark(n: nat, events: seq<Event>, b: nat): bool {
    if |events| == 0 then true else
    var before, e := events[..|events| - 1], events[|events| - 1];
    if e.Mark? && e.target == b && Run(n, before).writer.Idle? then e.healthy else LastMark(n, before, b)
  }

  lemma {:induction false} FlagsAreLastMarks(n: nat, events: seq<Event>, b: nat)
    requires b < n
    ensures |Run(n, events).flags| == n && Run(n, events).flags[b] == LastMark(n, events, b)
  {
    hide RequestStep, Count;
    if |events| > 0 {
      FlagsAreLastMarks(n, events[..|events| - 1], b);
    }
  }

  /** Whenever no mark is under way, the backends in the list are those whose last mark says healthy. */
  lemma {:induction false} ListedAsMarked(n: nat, events: seq<Event>, b: nat)
    requires b < n && Run(n, events).writer.Idle?
    ensures b in Run(n, events).cache <==> LastMark(n, events, b)
  {
    hide Run, LastMark;
    CacheCoherence(n, events);
    FlagsAreLastMarks(n, events, b);
    HealthyPositionsExact(Run(n, events).flags);
  }

  ghost function Scanned(s: State, m: nat): State {
    if m == 0 then s else Apply(Scanned(s, m - 1), Scan)
  }

  lemma {:induction false} ScannedTo(s: State, m: nat)
    requires s.writer.Scanning? && s.writer.scanned == 0 && s.writer.found == [] && m <= |s.flags|
    ensures Scanned(s, m) == s.(writer := s.writer.(scanned := m, found := HealthyPositions(s.flags[..m])))
  {
    if m > 0 {
      ScannedTo(s, m - 1);
      assert s.flags[..m][..m - 1] == s.flags[..m - 1];
    }
  }

  /** A mark that is carried through sets exactly its flag and leaves the list that a new filter gives. */
  lemma {:induction false} MarkCarriedThrough(s: State, target: nat, healthy: bool)
    requires s.writer.Idle? && target < |s.flags|
    ensures var flags := s.flags[target := healthy];
            Apply(Scanned(Apply(s, Mark(target, healthy)), |s.flags|), Install)
            == s.(flags := flags, cache := HealthyPositions(flags))
  {
    hide Scanned, HealthyPositions, RequestStep, Count;
    var flags := s.flags[target := healthy];
    var marked := Apply(s, Mark(target, healthy));
    assert marked == s.(flags := flags, writer := Scanning(target, s.flags[target], 0, []));
    ScannedTo(marked, |s.flags|);
    assert marked.flags[..|s.flags|] == flags;
  }

  // ---------- The healthy cache ----------

  /** The cached list is the filter of the flags, except possibly at the one backend being marked. */
  ghost predicate CacheCoherent(s: State) {
    match s.writer
    case Idle => s.cache == HealthyPositions(s.flags)
    case Scanning(target, was, scanned, found) =>
      && target < |s.flags| && scanned <= |s.flags|
      && s.cache == HealthyPositions(s.flags[target := was])
      && found == HealthyPositions(s.flags[..scanned])
  }

  lemma {:induction false} CoherenceStep(s: State, e: Event)
    requires CacheCoherent(s)
    ensures CacheCoherent(Apply(s, e))
  {
    if e.Mark? && s.writer.Idle? && e.target < |s.flags| {
      assert s.flags[e.target := e.healthy][e.target := s.flags[e.target]] == s.flags;
    } else if e.Scan? && s.writer.Scanning? && s.writer.scanned < |s.flags| {
      assert s.flags[..s.writer.scanned + 1][..s.writer.scanned] == s.flags[..s.writer.scanned];
    } else if e.Install? && s.writer.Scanning? && s.writer.scanned == |s.flags| {
      assert s.flags[..|s.flags|] == s.flags;
    }
  }

  /** At every step of every mark, with any number of readers. */
  lemma {:induction false} CacheCoherence(n: nat, events: seq<Event>)
    ensures CacheCoherent(Run(n, events))
  {
    hide Apply;
    if |events| > 0 {
      hide CacheCoherent;
      CacheCoherence(n, events[..|events| - 1]);
      CoherenceStep(Run(n, events[..|events| - 1]), events[|events| - 1]);
    }
  }

  /** A request that selects from a snapshot taken now goes to a backend that is up now or is being marked. */
  lemma {:induction false} SnapshotsAreFresh(n: nat, events: seq<Event>, k: nat, j: nat)
    requires var s := Run(n, events); k < |s.requests| && s.requests[k].Arrived?
    requires j < |Run(n, events).cache|
    ensures var s := Run(n, events);
            var s' := Apply(s, TakeSnapshot(k));
            && s'.requests[k] == Holding(s.cache) && s.cache[j] < |s.flags|
            && (s.flags[s.cache[j]] || (s.writer.Scanning? && s.writer.target == s.cache[j]))
  {
    var s := Run(n, events);
    hide Run;
    CacheCoherence(n, events);
    var flags := if s.writer.Scanning? then s.flags[s.writer.target := s.writer.was] else s.flags;
    HealthyPositionsExact(flags);
    assert s.cache[j] in HealthyPositions(flags);
  }
}
