/**
 The request machine under Least Connections with its scan taken one counter at a time: a request that has its
 snapshot reads the live counters one by one, while other requests take and drop guards. While every backend stays
 healthy this machine and the one of LeastScan simulate each other, so what is proved there holds of requests.
 */
module ScanInService {
  import opened Backends
  import opened BackendPools
  import opened LoadInService
  import opened RequestLifecycle
  import opened Sums
  import opened Words
  import LC = LeastConnections
  import LS = LeastScan
  import LeastScanRace

  /** Request k, which holds its snapshot, and how far its scan has come. */
  datatype Scanner = Scanner(k: nat, scan: LS.Scan)

  datatype Machine = Machine(s: State, scanners: seq<Scanner>)

  /** A request or the writer takes a step, or scanner j reads one counter. */
  datatype Step = Take(e: Event) | Read(j: nat)

  /** The event a step is to the request machine: the last read of a scan is its selection. */
  ghost function Meant(m: Machine, x: Step): Option<Event> {
    match x
    case Take(e) => if Scans(m, e) then None else Some(e)
    case Read(j) =>
      if j < |m.scanners| && ReadsLast(m, j) then Some(Select(m.scanners[j].k, Reading(m, j).best)) else None
  }

  /** Selecting is the scan's own affair, which nothing in it can make panic. */
  ghost predicate Scans(m: Machine, e: Event) {
    e.Select? || (e.Panic? && e.k < |m.s.requests| && m.s.requests[e.k].Holding?)
  }

  /** The counters the snapshot of a scanner names. */
  ghost function SnapshotOf(m: Machine, j: nat): seq<nat>
    requires j < |m.scanners|
  {
    var k := m.scanners[j].k;
    if k < |m.s.requests| && m.s.requests[k].Holding? then m.s.requests[k].snapshot else []
  }

  /** Scanner j after its next read. */
  ghost function Reading(m: Machine, j: nat): LS.Scan
    requires j < |m.scanners|
  {
    var c, snapshot := m.scanners[j].scan, SnapshotOf(m, j);
    if c.next < |snapshot| && snapshot[c.next] < |m.s.active| then LS.Seen(c, m.s.active[snapshot[c.next]])
    else c
  }

  ghost predicate ReadsLast(m: Machine, j: nat)
    requires j < |m.scanners|
  {
    Reading(m, j).next >= |SnapshotOf(m, j)|
  }

  ghost function Remove(scanners: seq<Scanner>, j: nat): seq<Scanner>
    requires j < |scanners|
  {
    scanners[..j] + scanners[j + 1..]
  }

  ghost function ScannersAfter(m: Machine, x: Step): seq<Scanner> {
    match x
    case Take(e) =>
      if e.TakeSnapshot? && e.k < |m.s.requests| && m.s.requests[e.k].Arrived? then
        m.scanners + [Scanner(e.k, LS.FRESH)]
      else m.scanners
    case Read(j) =>
      if j >= |m.scanners| then m.scanners
      else if ReadsLast(m, j) then Remove(m.scanners, j)
      else m.scanners[j := Scanner(m.scanners[j].k, Reading(m, j))]
  }

  /** One step. */
  ghost function Do(m: Machine, x: Step): Machine {
    var e := Meant(m, x);
    Machine(if e.Some? then Apply(m.s, e.value) else m.s, ScannersAfter(m, x))
  }

  ghost function After(n: nat, steps: seq<Step>): Machine {
    if |steps| == 0 then Machine(Start(n), []) else Do(After(n, steps[..|steps| - 1]), steps[|steps| - 1])
  }

  /** The run of the request machine behind a run with scans. */
  ghost function Behind(n: nat, steps: seq<Step>): seq<Event> {
    if |steps| == 0 then [] else
    var before := steps[..|steps| - 1];
    var e := Meant(After(n, before), steps[|steps| - 1]);
    Behind(n, before) + if e.Some? then [e.value] else []
  }

  /** Every run with scans is a run of the request machine, so all that holds of those runs holds of it. */
  lemma {:induction false} ScanningIsARun(n: nat, steps: seq<Step>)
    ensures After(n, steps).s == Run(n, Behind(n, steps))
  {
    hide Apply, Meant, ScannersAfter;
    if |steps| > 0 {
      var before := steps[..|steps| - 1];
      ScanningIsARun(n, before);
      var e := Meant(After(n, before), steps[|steps| - 1]);
      if e.Some? {
        assert Behind(n, steps)[..|Behind(n, before)|] == Behind(n, before);
      } else {
        assert Behind(n, steps) == Behind(n, before);
      }
    }
  }

  // ---------- While every backend is healthy ----------

  /** Scanners are different requests that hold their snapshots. */
  ghost predicate Scanning(n: nat, m: Machine) {
    && (forall j | 0 <= j < |m.scanners| ::
          && m.scanners[j].k < |m.s.requests| && m.s.requests[m.scanners[j].k].Holding?
          && LS.ScanOk(n, m.scanners[j].scan))
    && forall i, j | 0 <= i < j < |m.scanners| :: m.scanners[i].k != m.scanners[j].k
  }

  ghost function ScansOf(scanners: seq<Scanner>): (scans: seq<LS.Scan>)
    ensures |scans| == |scanners| && forall j | 0 <= j < |scans| :: scans[j] == scanners[j].scan
  {
    seq(|scanners|, j requires 0 <= j < |scanners| => scanners[j].scan)
  }

  /** What LeastScan sees of the machine. */
  ghost function Image(n: nat, m: Machine): LS.State {
    var l := LoadOf(n, m.s);
    LS.State(l.active, l.pending, ScansOf(m.scanners))
  }

  /** The event of LeastScan that a step is, if any. */
  ghost function ScanEvent(m: Machine, x: Step): Option<LS.Event> {
    match x
    case Read(j) => Some(LS.Read(j))
    case Take(e) =>
      if Scans(m, e) || e.Arrive? || e.Mark? || e.Scan? || e.Install? || e.k >= |m.s.requests| then None
      else if e.TakeSnapshot? && m.s.requests[e.k].Arrived? then Some(LS.Begin)
      else match Meaning(m.s.requests[e.k], e)
        case None => None
        case Some(f) => Some(LeastScanRace.Alike(f))
  }

  ghost function Seen(n: nat, s: LS.State, e: Option<LS.Event>): (s': LS.State)
    requires LS.Shaped(n, s)
    ensures LS.Shaped(n, s')
  {
    if e.Some? then LS.Apply(n, s, e.value) else s
  }

  lemma {:induction false} ImageShaped(n: nat, m: Machine)
    requires n > 0 && Scanning(n, m)
    ensures LS.Shaped(n, Image(n, m))
  {
  }

  /** A selection of any backend moves the load as a choice of it. */
  lemma {:induction false} SelectionMoves(n: nat, s: State, k: nat, b: nat)
    requires n > 0 && b < n && InService(n, s) && k < |s.requests| && s.requests[k].Holding?
    ensures var l, l' := LoadOf(n, s), LoadOf(n, Apply(s, Select(k, b)));
            l'.active == l.active && l'.pending == l.pending[b := l.pending[b] + 1]
  {
    var e := Select(k, b);
    var (r', change) := RequestStep(s.cache, s.requests[k], e);
    assert SeesAll(n, s.requests[k]);
    var l, l' := LoadOf(n, s), LoadOf(n, Apply(s, e));
    hide RequestStep, GuardOn, AwaitsOn, SeesAll, LoadOf, Count;
    forall i | 0 <= i < n
      ensures l'.active[i] == l.active[i] && l'.pending[i] == l.pending[i] + if i == b then 1 else 0
    {
      StepMoves(n, s.cache, s.requests[k], e, i);
      LoadMoves(n, s, k, r', Count(s.active, change), i);
    }
    assert l'.active == l.active;
    assert l'.pending == l.pending[b := l.pending[b] + 1];
  }

  /** What a scanner reads while all snapshots show every backend. */
  lemma {:induction false} ReadsTheLoad(n: nat, m: Machine, j: nat)
    requires n > 0 && InService(n, m.s) && Scanning(n, m) && j < |m.scanners|
    ensures var c := m.scanners[j].scan;
            && |SnapshotOf(m, j)| == n && Reading(m, j) == LS.Seen(c, LoadOf(n, m.s).active[c.next])
            && Reading(m, j).next == c.next + 1 && Reading(m, j).best < n
  {
    var k := m.scanners[j].k;
    assert SeesAll(n, m.s.requests[k]);
    CountersAreLoad(n, m.s);
    assert LS.ScanOk(n, m.scanners[j].scan);
  }

  lemma {:induction false} ReadIsScanRead(n: nat, m: Machine, j: nat)
    requires n > 0 && InService(n, m.s) && Scanning(n, m)
    ensures LS.Shaped(n, Image(n, m)) && Image(n, Do(m, Read(j))) == LS.Apply(n, Image(n, m), LS.Read(j))
  {
    ImageShaped(n, m);
    if j < |m.scanners| {
      ReadsTheLoad(n, m, j);
      var c := Reading(m, j);
      hide Reading, InService, LoadOf;
      if c.next < n {
        assert ScansOf(m.scanners[j := Scanner(m.scanners[j].k, c)]) == ScansOf(m.scanners)[j := c];
      } else {
        SelectionMoves(n, m.s, m.scanners[j].k, c.best);
        hide Apply, Scanning;
        assert ScansOf(Remove(m.scanners, j)) == LS.Without(ScansOf(m.scanners), j);
      }
    }
  }

  /** Each step is the event of LeastScan that it means. */
  lemma {:induction false} StepIsScanStep(n: nat, m: Machine, x: Step)
    requires n > 0 && InService(n, m.s) && Scanning(n, m) && (x.Take? ==> !x.e.Mark?)
    ensures LS.Shaped(n, Image(n, m)) && Image(n, Do(m, x)) == Seen(n, Image(n, m), ScanEvent(m, x))
  {
    ImageShaped(n, m);
    if x.Read? {
      ReadIsScanRead(n, m, x.j);
    } else {
      TakeIsScanStep(n, m, x.e);
    }
  }

  lemma {:induction false} TakeIsScanStep(n: nat, m: Machine, e: Event)
    requires n > 0 && InService(n, m.s) && Scanning(n, m) && !e.Mark? && LS.Shaped(n, Image(n, m))
    ensures Image(n, Do(m, Take(e))) == Seen(n, Image(n, m), ScanEvent(m, Take(e)))
  {
    if Scans(m, e) {
    } else if e.Arrive? {
      ArrivalIsNoLoad(n, m.s);
    } else if e.Scan? || e.Install? || e.k >= |m.s.requests| {
      assert Apply(m.s, e) == m.s;
    } else {
      RequestIsScanStep(n, m, e);
    }
  }

  lemma {:induction false} RequestIsScanStep(n: nat, m: Machine, e: Event)
    requires n > 0 && InService(n, m.s) && LS.Shaped(n, Image(n, m)) && !Scans(m, e)
    requires !e.Mark? && !e.Scan? && !e.Install? && !e.Arrive? && e.k < |m.s.requests|
    ensures Image(n, Do(m, Take(e))) == Seen(n, Image(n, m), ScanEvent(m, Take(e)))
  {
    assert LeastFirst(n, m.s, e);
    hide LoadOf, InService, Apply, LeastFirst;
    StepIsLoadStep(n, m.s, e);
    if e.TakeSnapshot? && m.s.requests[e.k].Arrived? {
      assert ScansOf(m.scanners + [Scanner(e.k, LS.FRESH)]) == ScansOf(m.scanners) + [LS.FRESH];
    }
  }

  lemma {:induction false} StepKeepsScanning(n: nat, m: Machine, x: Step)
    requires n > 0 && InService(n, m.s) && Scanning(n, m)
    ensures Scanning(n, Do(m, x))
  {
    hide InService;
    if x.Take? {
      TakeKeepsScanning(n, m, x.e);
    } else if x.j < |m.scanners| {
      ReadsTheLoad(n, m, x.j);
      ReadKeepsScanning(n, m, x.j);
    }
  }

  lemma {:induction false} TakeKeepsScanning(n: nat, m: Machine, e: Event)
    requires n > 0 && Scanning(n, m)
    ensures Scanning(n, Do(m, Take(e)))
  {
    hide Count;
  }

  lemma {:induction false} ReadKeepsScanning(n: nat, m: Machine, j: nat)
    requires n > 0 && Scanning(n, m) && j < |m.scanners|
    requires |SnapshotOf(m, j)| == n && Reading(m, j).next == m.scanners[j].scan.next + 1
    requires Reading(m, j) == LS.Seen(m.scanners[j].scan, LoadOf(n, m.s).active[m.scanners[j].scan.next])
    ensures Scanning(n, Do(m, Read(j)))
  {
    hide Count, Reading, LoadOf, WriterStep;
    var others := Remove(m.scanners, j);
    assert forall i | 0 <= i < |others| :: others[i] == m.scanners[if i < j then i else i + 1];
  }

  // ---------- Whole runs ----------

  /** Requests in flight, scanners among them, and those without a guard. */
  ghost predicate MachineLimits(m: Machine, K: nat, r: nat) {
    && CountOf(m.s.requests, |m.s.requests|, InFlight()) + |m.scanners| <= K
    && CountOf(m.s.requests, |m.s.requests|, Unguarded()) + |m.scanners| <= r
  }

  /** A run in which no backend is marked and the limits hold at every moment. */
  ghost predicate Racing(n: nat, steps: seq<Step>, K: nat, r: nat) {
    && MachineLimits(After(n, steps), K, r)
    && (|steps| > 0 ==>
          && Racing(n, steps[..|steps| - 1], K, r)
          && (steps[|steps| - 1].Take? ==> !steps[|steps| - 1].e.Mark?))
  }

  lemma {:induction false} StaysRacing(n: nat, steps: seq<Step>, K: nat, r: nat)
    requires n > 0 && K < TWO_64 && Racing(n, steps, K, r)
    ensures InService(n, After(n, steps).s) && Scanning(n, After(n, steps))
    decreases |steps|
  {
    hide Apply, CountOf, Do, Scanning, LS.ScanOk;
    if |steps| == 0 {
      AllHealthy(n);
      StartInService(n);
      NothingScans(n);
    } else {
      var before, x := steps[..|steps| - 1], steps[|steps| - 1];
      StaysRacing(n, before, K, r);
      StepKeepsScanning(n, After(n, before), x);
      DoInService(n, After(n, before), x);
      ScanningIsARun(n, steps);
      var s := After(n, steps).s;
      forall b | 0 <= b < n ensures s.active[b] == LiveGuards(s.requests, b) {
        ExactCounters(n, Behind(n, steps), b);
        GuardsAreInFlight(s.requests, |s.requests|, b);
      }
    }
  }

  lemma {:induction false} NothingScans(n: nat)
    ensures Scanning(n, Machine(Start(n), []))
  {
  }

  lemma {:induction false} DoInService(n: nat, m: Machine, x: Step)
    requires InService(n, m.s) && (x.Take? ==> !x.e.Mark?)
    ensures var s' := Do(m, x).s;
            && s'.writer.Idle? && s'.cache == Everyone(n) && |s'.active| == n
            && forall k | 0 <= k < |s'.requests| :: SeesAll(n, s'.requests[k])
  {
    hide Apply, ScannersAfter;
    var e := Meant(m, x);
    if e.Some? {
      StepInService(n, m.s, e.value);
    }
  }

  /** The limits on requests are those of LeastScan. */
  lemma {:induction false} MachineLimitsAgree(n: nat, m: Machine, K: nat, r: nat)
    requires n > 0 && Scanning(n, m) && forall k | 0 <= k < |m.s.requests| :: SeesAll(n, m.s.requests[k])
    ensures LS.Shaped(n, Image(n, m))
    ensures MachineLimits(m, K, r) <==> LS.Limits(n, Image(n, m), K, r)
  {
    ImageShaped(n, m);
    var l := LoadOf(n, m.s);
    LoadSums(n, m.s);
  }

  /** Every such run is, step by step, a run of LeastScan. */
  lemma {:induction false} RacingIsScanning(n: nat, steps: seq<Step>, K: nat, r: nat) returns (events: seq<LS.Event>)
    requires n > 0 && K < TWO_64 && Racing(n, steps, K, r)
    ensures LS.Within(n, events, K, r) && LS.Run(n, events) == Image(n, After(n, steps))
    decreases |steps|
  {
    hide Do, Image, LS.Apply, MachineLimits, LS.Limits, InService, Scanning, ScanEvent, CountOf;
    StaysRacing(n, steps, K, r);
    AllPlaced(n, After(n, steps).s);
    MachineLimitsAgree(n, After(n, steps), K, r);
    if |steps| == 0 {
      events := [];
      NoImage(n);
    } else {
      var before, x := steps[..|steps| - 1], steps[|steps| - 1];
      events := RacingIsScanning(n, before, K, r);
      StaysRacing(n, before, K, r);
      StepIsScanStep(n, After(n, before), x);
      var e := ScanEvent(After(n, before), x);
      if e.Some? {
        LeastScanRace.Extend(n, events, e.value, K, r);
        events := events + [e.value];
      }
    }
  }

  lemma {:induction false} AllPlaced(n: nat, s: State)
    requires InService(n, s)
    ensures forall k | 0 <= k < |s.requests| :: SeesAll(n, s.requests[k])
  {
  }

  lemma {:induction false} NoImage(n: nat)
    requires n > 0
    ensures Image(n, Machine(Start(n), [])) == LS.Start(n)
  {
    var l := LoadOf(n, Start(n));
    forall b | 0 <= b < n ensures l.active[b] == 0 && l.pending[b] == 0 {
      NoRequestsNoLoad(n, Start(n), b);
    }
    assert l.active == LS.Start(n).active && l.pending == LS.Start(n).pending;
  }

  /** What a backend has been given: its counter, and the requests that have selected it and hold no guard yet. */
  ghost function Given(m: Machine, b: nat): nat
    requires b < |m.s.active|
  {
    m.s.active[b] + CountOf(m.s.requests, |m.s.requests|, AwaitsOn(b))
  }

  lemma {:induction false} GivenIsImage(n: nat, m: Machine, b: nat)
    requires b < n && InService(n, m.s)
    ensures b < |m.s.active| && Given(m, b) == Image(n, m).active[b] + Image(n, m).pending[b]
  {
    LoadAt(n, m.s, b);
  }

  /**
   While requests scan one counter at a time, no backend is given more than the ceiling of two backends, and no more
   than its own ceiling when there are at most two of them or at most two requests without a guard.
   */
  lemma {:induction false} RacingServiceLoad(n: nat, steps: seq<Step>, K: nat, r: nat, b: nat)
    requires b < n && 1 <= r <= K < TWO_64 && Racing(n, steps, K, r)
    ensures b < |After(n, steps).s.active|
    ensures Given(After(n, steps), b) <= LC.Ceiling(if n == 1 then 1 else 2, K, r)
    ensures n <= 2 || r <= 2 ==> Given(After(n, steps), b) <= LC.Ceiling(n, K, r)
  {
    hide After, Racing, Image, Given, LC.Ceiling, LS.Run, LS.Within, InService;
    StaysRacing(n, steps, K, r);
    GivenIsImage(n, After(n, steps), b);
    var events := RacingIsScanning(n, steps, K, r);
    LS.RacingLoad(n, events, K, r, b);
    if n <= 2 || r <= 2 {
      LS.ScanCeiling(n, events, K, r, b);
    }
  }

  // ---------- The race among requests ----------

  lemma {:induction false} RacingNow(n: nat, steps: seq<Step>, K: nat, r: nat)
    requires n > 0 && K < TWO_64 && Racing(n, steps, K, r)
    ensures InService(n, After(n, steps).s) && Scanning(n, After(n, steps))
    ensures LS.Shaped(n, Image(n, After(n, steps))) && LS.Limits(n, Image(n, After(n, steps)), K, r)
  {
    hide After, MachineLimits, LS.Limits, Image, InService, Scanning;
    StaysRacing(n, steps, K, r);
    AllPlaced(n, After(n, steps).s);
    MachineLimitsAgree(n, After(n, steps), K, r);
    assert MachineLimits(After(n, steps), K, r);
  }

  /** A step whose event stays within the limits prolongs the run. */
  lemma {:induction false} Prolong(n: nat, steps: seq<Step>, x: Step, K: nat, r: nat)
    requires n > 0 && K < TWO_64 && Racing(n, steps, K, r) && (x.Take? ==> !x.e.Mark?)
    requires LS.Shaped(n, Image(n, After(n, steps)))
    requires LS.Limits(n, Seen(n, Image(n, After(n, steps)), ScanEvent(After(n, steps), x)), K, r)
    ensures Racing(n, steps + [x], K, r) && After(n, steps + [x]) == Do(After(n, steps), x)
    ensures Image(n, After(n, steps + [x])) == Seen(n, Image(n, After(n, steps)), ScanEvent(After(n, steps), x))
  {
    assert (steps + [x])[..|steps|] == steps;
    var m := After(n, steps);
    assert After(n, steps + [x]) == Do(m, x);
    hide Do, MachineLimits, LS.Limits, Image, InService, Scanning, ScanEvent, Seen, SeesAll;
    StaysRacing(n, steps, K, r);
    StepIsScanStep(n, m, x);
    StepKeepsScanning(n, m, x);
    DoInService(n, m, x);
    MachineLimitsAgree(n, Do(m, x), K, r);
  }

  /** A new request arrives and takes its snapshot. */
  lemma {:induction false} BeginInService(n: nat, steps: seq<Step>, K: nat, r: nat) returns (steps': seq<Step>)
    requires n > 0 && K < TWO_64 && Racing(n, steps, K, r) && LS.Shaped(n, Image(n, After(n, steps)))
    requires LS.Limits(n, LS.Apply(n, Image(n, After(n, steps)), LS.Begin), K, r)
    ensures Racing(n, steps', K, r)
    ensures Image(n, After(n, steps')) == LS.Apply(n, Image(n, After(n, steps)), LS.Begin)
  {
    hide Racing, After, LS.Limits, Image, InService, Scanning, LS.Apply;
    var m := After(n, steps);
    RacingNow(n, steps, K, r);
    Prolong(n, steps, Take(Arrive), K, r);
    steps' := steps + [Take(Arrive)];
    var k := |m.s.requests|;
    assert After(n, steps').s.requests[k] == Arrived;
    Prolong(n, steps', Take(TakeSnapshot(k)), K, r);
    steps' := steps' + [Take(TakeSnapshot(k))];
  }

  /** A request that has selected backend b and holds no guard. */
  lemma {:induction false} SomeChosen(n: nat, m: Machine, b: nat) returns (k: nat)
    requires b < n && InService(n, m.s) && Image(n, m).pending[b] > 0
    ensures k < |m.s.requests| && m.s.requests[k].Chosen? && m.s.requests[k].index == b
  {
    LoadAt(n, m.s, b);
    hide CountOf;
    k := CountOfWitness(m.s.requests, |m.s.requests|, AwaitsOn(b));
    assert SeesAll(n, m.s.requests[k]);
  }

  /** A request that holds a guard of backend b. */
  lemma {:induction false} SomeGuarded(n: nat, m: Machine, b: nat) returns (k: nat)
    requires b < n && InService(n, m.s) && Image(n, m).active[b] > 0
    ensures k < |m.s.requests| && (m.s.requests[k].Waiting? || m.s.requests[k].Leaving?)
    ensures m.s.requests[k].index == b
  {
    LoadAt(n, m.s, b);
    hide CountOf;
    k := CountOfWitness(m.s.requests, |m.s.requests|, GuardOn(b));
    assert SeesAll(n, m.s.requests[k]);
  }

  /** A request that has selected backend b takes its guard or is turned away. */
  lemma {:induction false} LeaveRace(n: nat, steps: seq<Step>, b: nat, guard: bool, K: nat, r: nat)
    returns (steps': seq<Step>)
    requires b < n && K < TWO_64 && Racing(n, steps, K, r) && LS.Shaped(n, Image(n, After(n, steps)))
    requires Image(n, After(n, steps)).pending[b] > 0
    requires var f := if guard then LS.TakeGuard(b) else LS.TurnAway(b);
             LS.Limits(n, LS.Apply(n, Image(n, After(n, steps)), f), K, r)
    ensures Racing(n, steps', K, r)
    ensures var f := if guard then LS.TakeGuard(b) else LS.TurnAway(b);
            Image(n, After(n, steps')) == LS.Apply(n, Image(n, After(n, steps)), f)
  {
    hide Racing, After, LS.Limits, Image, LS.Apply, Scanning, InService, Do;
    RacingNow(n, steps, K, r);
    var k := SomeChosen(n, After(n, steps), b);
    var x := Take(if guard then TakeGuard(k) else RejectUri(k));
    Prolong(n, steps, x, K, r);
    steps' := steps + [x];
  }

  /** A request that holds a guard is answered, which moves no load. */
  lemma {:induction false} AnswerInRace(n: nat, steps: seq<Step>, k: nat, K: nat, r: nat)
    requires n > 0 && K < TWO_64 && Racing(n, steps, K, r)
    requires k < |After(n, steps).s.requests| && After(n, steps).s.requests[k].Waiting?
    ensures var x := Take(Answer(k, Forwarded));
            && Racing(n, steps + [x], K, r) && Image(n, After(n, steps + [x])) == Image(n, After(n, steps))
            && k < |After(n, steps + [x]).s.requests| && After(n, steps + [x]).s.requests[k].Leaving?
            && After(n, steps + [x]).s.requests[k].index == After(n, steps).s.requests[k].index
  {
    hide Racing, After, LS.Limits, Image, Scanning, InService;
    RacingNow(n, steps, K, r);
    Prolong(n, steps, Take(Answer(k, Forwarded)), K, r);
  }

  /** A request that holds a guard of backend b finishes and drops it. */
  lemma {:induction false} DropInRace(n: nat, steps: seq<Step>, b: nat, K: nat, r: nat) returns (steps': seq<Step>)
    requires b < n && K < TWO_64 && Racing(n, steps, K, r) && LS.Shaped(n, Image(n, After(n, steps)))
    requires Image(n, After(n, steps)).active[b] > 0
    requires LS.Limits(n, LS.Apply(n, Image(n, After(n, steps)), LS.DropGuard(b)), K, r)
    ensures Racing(n, steps', K, r)
    ensures Image(n, After(n, steps')) == LS.Apply(n, Image(n, After(n, steps)), LS.DropGuard(b))
  {
    hide Racing, After, LS.Limits, Image, LS.Apply, Scanning, InService, Do;
    RacingNow(n, steps, K, r);
    var k := SomeGuarded(n, After(n, steps), b);
    steps' := steps;
    if After(n, steps).s.requests[k].Waiting? {
      AnswerInRace(n, steps, k, K, r);
      steps' := steps + [Take(Answer(k, Forwarded))];
    }
    Prolong(n, steps', Take(Release(k)), K, r);
    steps' := steps' + [Take(Release(k))];
  }

  lemma {:induction false} ServeScan(n: nat, steps: seq<Step>, e: LS.Event, K: nat, r: nat) returns (steps': seq<Step>)
    requires n > 0 && K < TWO_64 && Racing(n, steps, K, r) && LS.Shaped(n, Image(n, After(n, steps)))
    requires LS.Limits(n, LS.Apply(n, Image(n, After(n, steps)), e), K, r)
    ensures Racing(n, steps', K, r) && Image(n, After(n, steps')) == LS.Apply(n, Image(n, After(n, steps)), e)
  {
    hide Racing, After, LS.Limits, Image;
    var s := Image(n, After(n, steps));
    steps' := steps;
    match e {
      case Begin => steps' := BeginInService(n, steps, K, r);
      case Read(j) =>
        Prolong(n, steps, Read(j), K, r);
        steps' := steps + [Read(j)];
      case TakeGuard(b) => if b < n && s.pending[b] > 0 { steps' := LeaveRace(n, steps, b, true, K, r); }
      case TurnAway(b) => if b < n && s.pending[b] > 0 { steps' := LeaveRace(n, steps, b, false, K, r); }
      case DropGuard(b) => if b < n && s.active[b] > 0 { steps' := DropInRace(n, steps, b, K, r); }
    }
  }

  /** Every run of LeastScan is what some interleaving of requests within the same limits does. */
  lemma {:induction false} EveryScanIsServed(n: nat, events: seq<LS.Event>, K: nat, r: nat)
    returns (steps: seq<Step>)
    requires n > 0 && K < TWO_64 && LS.Within(n, events, K, r)
    ensures Racing(n, steps, K, r) && Image(n, After(n, steps)) == LS.Run(n, events)
    decreases |events|
  {
    hide LS.Limits, LS.Apply, Image;
    if |events| == 0 {
      steps := [];
      NoImage(n);
      RacingFromStart(n, K, r);
    } else {
      steps := EveryScanIsServed(n, events[..|events| - 1], K, r);
      hide Racing, After;
      steps := ServeScan(n, steps, events[|events| - 1], K, r);
    }
  }

  lemma {:induction false} RacingFromStart(n: nat, K: nat, r: nat)
    ensures Racing(n, [], K, r)
  {
  }

  /** Where a race is on, some interleaving of requests gives a backend one more than the ceiling. */
  lemma {:induction false} RequestsBreakCeiling(n: nat, K: nat, r: nat, d: nat) returns (steps: seq<Step>)
    requires LeastScanRace.RaceOn(n, K, r, d)
    ensures Racing(n, steps, K, r) && |After(n, steps).s.active| == n
    ensures Given(After(n, steps), 0) == LC.Ceiling(n, K, r) + 1
  {
    hide After, Racing, Image, Given, LC.Ceiling, LS.Run, LS.Within, InService;
    var events := LeastScanRace.RaceBreaksCeiling(n, K, r, d);
    steps := EveryScanIsServed(n, events, K, r);
    StaysRacing(n, steps, K, r);
    CountersOf(n, After(n, steps).s);
    GivenIsImage(n, After(n, steps), 0);
  }

  lemma {:induction false} CountersOf(n: nat, s: State)
    requires InService(n, s)
    ensures |s.active| == n
  {
  }

  /** No interleaving of requests within these limits gives a backend more than the ceiling. */
  ghost predicate RacesSafely(n: nat, K: nat, r: nat)
    requires n > 0 && r <= K
  {
    forall steps, b | Racing(n, steps, K, r) && 0 <= b < n && |After(n, steps).s.active| == n ::
      Given(After(n, steps), b) <= LC.Ceiling(n, K, r)
  }

  /** For every number of requests that is so exactly with at most two backends or r of at most 2. */
  lemma {:induction false} RacesSafelyIff(n: nat, r: nat)
    requires n > 0 && r > 0 && 2 * n - 1 + r < TWO_64
    ensures (forall K: nat | r <= K < TWO_64 :: RacesSafely(n, K, r)) <==> n <= 2 || r <= 2
  {
    hide Racing, After, LC.Ceiling, Given;
    if n <= 2 || r <= 2 {
      forall K: nat, steps, b
        | r <= K < TWO_64 && Racing(n, steps, K, r) && 0 <= b < n && |After(n, steps).s.active| == n
        ensures Given(After(n, steps), b) <= LC.Ceiling(n, K, r)
      {
        RacingServiceLoad(n, steps, K, r, b);
      }
    } else {
      var K := 2 * n - 1 + r;
      LeastScanRace.RaceIsOnAt(n, 2, r);
      var steps := RequestsBreakCeiling(n, K, r, 1);
      assert !RacesSafely(n, K, r);
    }
  }
}
