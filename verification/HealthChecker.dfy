/**
 The health checker over a whole pool: one status map, results taken in completion order, flags flipped
 through the pool. Backends do not interfere, so completion order cannot matter, and every flag follows
 the history of its own address.
 */
module HealthCheckers {
  import opened Backends
  import opened BackendPools
  import opened HealthHistory

  /** One joined check task: its result, or a task that panicked, which ends the processing of its tick. */
  datatype Joined = Finished(addr: SocketAddr, result: CheckResult) | TaskPanicked

  type Checked = (SocketAddr, CheckResult)

  /** What the checker and the pool hold: status map, flags by position, health gauges by address. */
  datatype CheckerState = CheckerState(
    status: map<SocketAddr, BackendStatus>, flags: seq<bool>, gauges: map<SocketAddr, bool>)

  function StatusOf(status: map<SocketAddr, BackendStatus>, a: SocketAddr): BackendStatus {
    if a in status then status[a] else FRESH
  }

  /** The effect of one result. */
  function Record(s: CheckerState, addrs: seq<SocketAddr>, cfg: Thresholds, c: Checked): (s': CheckerState)
    requires |s.flags| == |addrs|
    ensures |s'.flags| == |addrs|
  {
    var (a, result) := c;
    var status := StatusOf(s.status, a).Update(result);
    var i := FindAddr(addrs, a);
    var down := status.consecutiveFailures >= cfg.unhealthy && i.Some? && s.flags[i.value];
    var lowered, gauges := if down then s.flags[i.value := false] else s.flags,
                           if down then s.gauges[a := false] else s.gauges;
    var up := status.consecutiveSuccesses >= cfg.healthy && i.Some? && !lowered[i.value];
    CheckerState(s.status[a := status], if up then lowered[i.value := true] else lowered,
                 if up then gauges[a := true] else gauges)
  }

  function RecordAll(s: CheckerState, addrs: seq<SocketAddr>, cfg: Thresholds, cs: seq<Checked>): (s': CheckerState)
    requires |s.flags| == |addrs|
    ensures |s'.flags| == |addrs|
  {
    if |cs| == 0 then s
    else Record(RecordAll(s, addrs, cfg, cs[..|cs| - 1]), addrs, cfg, cs[|cs| - 1])
  }

  /** Drops the statuses of addresses the pool does not have. */
  function Prune(s: CheckerState, addrs: seq<SocketAddr>): CheckerState {
    s.(status := map a | a in s.status && a in addrs :: s.status[a])
  }

  /** The results of a tick that are processed: those that join before a panicked task. */
  function Processed(tick: seq<Joined>): (cs: seq<Checked>) {
    if |tick| == 0 || tick[0].TaskPanicked? then []
    else [(tick[0].addr, tick[0].result)] + Processed(tick[1..])
  }

  /** How many joined tasks come before the first that panicked. */
  function Joins(tick: seq<Joined>): (m: nat)
    ensures m <= |tick| && (forall j | 0 <= j < m :: tick[j].Finished?) && (m < |tick| ==> tick[m].TaskPanicked?)
  {
    if |tick| == 0 || tick[0].TaskPanicked? then 0 else Joins(tick[1..]) + 1
  }

  /** Exactly the results before the first panic are processed, each once, in the order in which they joined. */
  lemma {:induction false} ProcessedExact(tick: seq<Joined>)
    ensures |Processed(tick)| == Joins(tick)
    ensures forall j | 0 <= j < Joins(tick) :: tick[j] == Finished(Processed(tick)[j].0, Processed(tick)[j].1)
  {
    if |tick| > 0 && tick[0].Finished? {
      ProcessedExact(tick[1..]);
    }
  }

  function Tick(s: CheckerState, addrs: seq<SocketAddr>, cfg: Thresholds, tick: seq<Joined>): (s': CheckerState)
    requires |s.flags| == |addrs|
    ensures |s'.flags| == |addrs|
  {
    Prune(RecordAll(s, addrs, cfg, Processed(tick)), addrs)
  }

  function Ticks(s: CheckerState, addrs: seq<SocketAddr>, cfg: Thresholds, ticks: seq<seq<Joined>>): (s': CheckerState)
    requires |s.flags| == |addrs|
    ensures |s'.flags| == |addrs|
  {
    if |ticks| == 0 then s
    else Tick(Ticks(s, addrs, cfg, ticks[..|ticks| - 1]), addrs, cfg, ticks[|ticks| - 1])
  }

  lemma {:induction false} NoTicks(s: CheckerState, addrs: seq<SocketAddr>, cfg: Thresholds, ticks: seq<seq<Joined>>)
    requires |s.flags| == |addrs|
    ensures Ticks(s, addrs, cfg, ticks[..0]) == s
  {
  }

  lemma {:induction false} NextTick(s: CheckerState, addrs: seq<SocketAddr>, cfg: Thresholds, ticks: seq<seq<Joined>>,
                                    i: nat)
    requires |s.flags| == |addrs| && i < |ticks|
    ensures Ticks(s, addrs, cfg, ticks[..i + 1]) == Tick(Ticks(s, addrs, cfg, ticks[..i]), addrs, cfg, ticks[i])
  {
    assert ticks[..i + 1][..i] == ticks[..i];
  }

  // ---------- The checker object ----------

  class HealthChecker {
    const cfg: Thresholds
    const pool: BackendPool
    var gauges: map<SocketAddr, bool>

    constructor (cfg: Thresholds, pool: BackendPool)
      ensures this.cfg == cfg && this.pool == pool && gauges == map[]
    {
      this.cfg, this.pool, gauges := cfg, pool, map[];
    }

    ghost predicate Valid()
      reads pool, pool.backends
    {
      pool.Valid() && pool.Coherent()
    }

    ghost function State(status: map<SocketAddr, BackendStatus>): CheckerState
      reads this, pool.backends
    {
      CheckerState(status, Flags(pool.backends), gauges)
    }

    /** The first threshold test: enough failures take a backend that is up out of rotation. */
    method CheckFailures(addr: SocketAddr, failures: nat)
      requires Valid()
      modifies this, pool, pool.backends`healthy
      ensures Valid()
      ensures var i := FindAddr(Addresses(pool.backends), addr);
              var down := failures >= cfg.unhealthy && i.Some? && old(Flags(pool.backends))[i.value];
              && Flags(pool.backends)
                 == (if down then old(Flags(pool.backends))[i.value := false] else old(Flags(pool.backends)))
              && gauges == if down then old(gauges)[addr := false] else old(gauges)
    {
      hide HealthyOnly, FindAddr, Flags, Addresses, BackendPool.GetHealthByAddr;
      if failures >= cfg.unhealthy && pool.GetHealthByAddr(addr) == Some(true) {
        var _ := pool.MarkByAddr(addr, false);
        gauges := gauges[addr := false];
      }
    }

    /** The second: enough successes bring a backend that is down back. */
    method CheckSuccesses(addr: SocketAddr, successes: nat)
      requires Valid()
      modifies this, pool, pool.backends`healthy
      ensures Valid()
      ensures var i := FindAddr(Addresses(pool.backends), addr);
              var up := successes >= cfg.healthy && i.Some? && !old(Flags(pool.backends))[i.value];
              && Flags(pool.backends)
                 == (if up then old(Flags(pool.backends))[i.value := true] else old(Flags(pool.backends)))
              && gauges == if up then old(gauges)[addr := true] else old(gauges)
    {
      hide HealthyOnly, FindAddr, Flags, Addresses, BackendPool.GetHealthByAddr;
      if successes >= cfg.healthy && pool.GetHealthByAddr(addr) == Some(false) {
        var _ := pool.MarkByAddr(addr, true);
        gauges := gauges[addr := true];
      }
    }

    /** The body of the join loop. */
    method RecordResult(statusMap: map<SocketAddr, BackendStatus>, addr: SocketAddr, result: CheckResult)
      returns (statusMap': map<SocketAddr, BackendStatus>)
      requires Valid()
      modifies this, pool, pool.backends`healthy
      ensures Valid()
      ensures State(statusMap') == Record(old(State(statusMap)), Addresses(pool.backends), cfg, (addr, result))
    {
      hide HealthyOnly, FindAddr, Flags, Addresses, BackendStatus.Update;
      var status := StatusOf(statusMap, addr).Update(result);
      statusMap' := statusMap[addr := status];
      CheckFailures(addr, status.consecutiveFailures);
      CheckSuccesses(addr, status.consecutiveSuccesses);
    }

    /** One interval tick: process the joined results, then prune. */
    method RunTick(statusMap: map<SocketAddr, BackendStatus>, tick: seq<Joined>)
      returns (statusMap': map<SocketAddr, BackendStatus>)
      requires Valid()
      modifies this, pool, pool.backends`healthy
      ensures Valid()
      ensures State(statusMap') == Tick(old(State(statusMap)), Addresses(pool.backends), cfg, tick)
    {
      hide HealthyOnly, Record, Flags, Addresses;
      statusMap' := statusMap;
      ghost var start, addrs := State(statusMap), Addresses(pool.backends);
      ghost var done: seq<Checked> := [];
      var i := 0;
      assert tick[0..] == tick;
      while i < |tick| && tick[i].Finished?
        invariant i <= |tick| && Valid()
        invariant Processed(tick) == done + Processed(tick[i..])
        invariant State(statusMap') == RecordAll(start, addrs, cfg, done)
      {
        statusMap' := RecordResult(statusMap', tick[i].addr, tick[i].result);
        ghost var c := (tick[i].addr, tick[i].result);
        assert Processed(tick[i..]) == [c] + Processed(tick[i + 1..]) by {
          assert tick[i..][1..] == tick[i + 1..];
        }
        assert (done + [c])[..|done|] == done;
        done := done + [c];
        i := i + 1;
      }
      assert Processed(tick[i..]) == [];
      assert done == Processed(tick);
      var known := Addresses(pool.backends);
      statusMap' := map a | a in statusMap' && a in known :: statusMap'[a];
    }

    /** The whole run, one tick after another until it is cancelled. */
    method Run(ticks: seq<seq<Joined>>) returns (statusMap: map<SocketAddr, BackendStatus>)
      requires Valid()
      modifies this, pool, pool.backends`healthy
      ensures Valid()
      ensures State(statusMap) == Ticks(old(State(map[])), Addresses(pool.backends), cfg, ticks)
    {
      hide Tick, HealthyOnly, Flags, Addresses, Ticks;
      statusMap := map[];
      ghost var start, addrs := State(statusMap), Addresses(pool.backends);
      NoTicks(start, addrs, cfg, ticks);
      for i := 0 to |ticks|
        invariant Valid()
        invariant State(statusMap) == Ticks(start, addrs, cfg, ticks[..i])
      {
        statusMap := RunTick(statusMap, ticks[i]);
        NextTick(start, addrs, cfg, ticks, i);
      }
      assert ticks[..|ticks|] == ticks;
    }
  }

  // ---------- Each address on its own ----------

  /** All that one address can see of the state. */
  datatype Cell = Cell(status: Option<BackendStatus>, flag: Option<bool>, gauge: Option<bool>)

  function View(s: CheckerState, addrs: seq<SocketAddr>, a: SocketAddr): Cell
    requires |s.flags| == |addrs|
  {
    var i := FindAddr(addrs, a);
    Cell(if a in s.status then Some(s.status[a]) else None,
         if i.Some? then Some(s.flags[i.value]) else None,
         if a in s.gauges then Some(s.gauges[a]) else None)
  }

  /** One result for the address: its backend, if the pool has one, observes it; a mark sets the gauge. */
  function CellStep(c: Cell, cfg: Thresholds, r: CheckResult): Cell {
    var status := if c.status.Some? then c.status.value else FRESH;
    if c.flag.None? then Cell(Some(status.Update(r)), None, c.gauge) else
    var m := Monitored(status, c.flag.value);
    var after := Observe(m, r, cfg);
    Cell(Some(after.status), Some(after.flag),
         if BringsUp(m, r, cfg) || TakesDown(m, r, cfg) then Some(after.flag) else c.gauge)
  }

  function CellRun(c: Cell, cfg: Thresholds, h: seq<CheckResult>): Cell {
    if |h| == 0 then c else CellStep(CellRun(c, cfg, h[..|h| - 1]), cfg, h[|h| - 1])
  }

  /** The results for one address, in order. */
  function HistoryOf(cs: seq<Checked>, a: SocketAddr): (h: seq<CheckResult>)
    ensures |h| <= |cs|
  {
    if |cs| == 0 then []
    else HistoryOf(cs[..|cs| - 1], a) + if cs[|cs| - 1].0 == a then [cs[|cs| - 1].1] else []
  }

  lemma {:induction false} RecordViews(s: CheckerState, addrs: seq<SocketAddr>, cfg: Thresholds, c: Checked,
                                       a: SocketAddr)
    requires |s.flags| == |addrs|
    ensures View(Record(s, addrs, cfg, c), addrs, a)
         == if c.0 == a then CellStep(View(s, addrs, a), cfg, c.1) else View(s, addrs, a)
  {
  }

  /** What an address sees depends only on the results for that address. */
  lemma {:induction false} BackendsAreIndependent(s: CheckerState, addrs: seq<SocketAddr>, cfg: Thresholds,
                                                  cs: seq<Checked>, a: SocketAddr)
    requires |s.flags| == |addrs|
    ensures View(RecordAll(s, addrs, cfg, cs), addrs, a) == CellRun(View(s, addrs, a), cfg, HistoryOf(cs, a))
  {
    hide View, Record, CellStep;
    if |cs| > 0 {
      var before, c := cs[..|cs| - 1], cs[|cs| - 1];
      BackendsAreIndependent(s, addrs, cfg, before, a);
      RecordViews(RecordAll(s, addrs, cfg, before), addrs, cfg, c, a);
      if c.0 == a {
        assert HistoryOf(cs, a)[..|HistoryOf(before, a)|] == HistoryOf(before, a);
      } else {
        assert HistoryOf(cs, a) == HistoryOf(before, a);
      }
    }
  }

  /** The position is the one its own address is looked up at. */
  ghost predicate IsFirst(addrs: seq<SocketAddr>, i: nat)
    requires i < |addrs|
  {
    FindAddr(addrs, addrs[i]) == Some(i)
  }

  /** A backend whose address an earlier backend already has is never marked, whatever its checks say. */
  lemma {:induction false} ShadowedBackendNeverMarked(s: CheckerState, addrs: seq<SocketAddr>, cfg: Thresholds,
                                                      cs: seq<Checked>, i: nat)
    requires |s.flags| == |addrs| && i < |addrs| && !IsFirst(addrs, i)
    ensures RecordAll(s, addrs, cfg, cs).flags[i] == s.flags[i]
  {
    if |cs| > 0 {
      ShadowedBackendNeverMarked(s, addrs, cfg, cs[..|cs| - 1], i);
    }
  }

  lemma {:induction false} ViewsDetermineState(s: CheckerState, t: CheckerState, addrs: seq<SocketAddr>)
    requires |s.flags| == |t.flags| == |addrs|
    requires forall a :: View(s, addrs, a) == View(t, addrs, a)
    requires forall i | 0 <= i < |addrs| && !IsFirst(addrs, i) :: s.flags[i] == t.flags[i]
    ensures s == t
  {
    forall a ensures a in s.status <==> a in t.status
             ensures a in s.status ==> s.status[a] == t.status[a]
             ensures a in s.gauges <==> a in t.gauges
             ensures a in s.gauges ==> s.gauges[a] == t.gauges[a]
    {
      assert View(s, addrs, a) == View(t, addrs, a);
    }
    forall i | 0 <= i < |addrs| ensures s.flags[i] == t.flags[i] {
      assert View(s, addrs, addrs[i]) == View(t, addrs, addrs[i]);
    }
    assert s.status == t.status && s.gauges == t.gauges && s.flags == t.flags;
  }

  /** Two result sequences that agree address by address leave the same status map, flags and gauges. */
  lemma {:induction false} OrderAcrossBackendsIsIrrelevant(s: CheckerState, addrs: seq<SocketAddr>, cfg: Thresholds,
                                                           cs: seq<Checked>, ds: seq<Checked>)
    requires |s.flags| == |addrs|
    requires forall a :: HistoryOf(cs, a) == HistoryOf(ds, a)
    ensures RecordAll(s, addrs, cfg, cs) == RecordAll(s, addrs, cfg, ds)
  {
    hide View, RecordAll, CellRun;
    forall a ensures View(RecordAll(s, addrs, cfg, cs), addrs, a) == View(RecordAll(s, addrs, cfg, ds), addrs, a) {
      BackendsAreIndependent(s, addrs, cfg, cs, a);
      BackendsAreIndependent(s, addrs, cfg, ds, a);
    }
    forall i | 0 <= i < |addrs| && !IsFirst(addrs, i)
      ensures RecordAll(s, addrs, cfg, cs).flags[i] == RecordAll(s, addrs, cfg, ds).flags[i]
    {
      ShadowedBackendNeverMarked(s, addrs, cfg, cs, i);
      ShadowedBackendNeverMarked(s, addrs, cfg, ds, i);
    }
    ViewsDetermineState(RecordAll(s, addrs, cfg, cs), RecordAll(s, addrs, cfg, ds), addrs);
  }

  /** No address reports twice. */
  ghost predicate OneEach(cs: seq<Checked>) {
    forall i, j | 0 <= i < j < |cs| :: cs[i].0 != cs[j].0
  }

  lemma {:induction false} HistoryOfNone(cs: seq<Checked>, a: SocketAddr)
    requires forall k | 0 <= k < |cs| :: cs[k].0 != a
    ensures HistoryOf(cs, a) == []
  {
    if |cs| > 0 {
      HistoryOfNone(cs[..|cs| - 1], a);
    }
  }

  lemma {:induction false} HistoryOfOne(cs: seq<Checked>, k: nat)
    requires OneEach(cs) && k < |cs|
    ensures HistoryOf(cs, cs[k].0) == [cs[k].1]
  {
    var before := cs[..|cs| - 1];
    if k < |before| {
      HistoryOfOne(before, k);
      assert cs[|cs| - 1].0 != cs[k].0;
    } else {
      HistoryOfNone(before, cs[k].0);
    }
  }

  /** The results of one tick may complete in any order. */
  lemma {:induction false} CompletionOrderIsIrrelevant(s: CheckerState, addrs: seq<SocketAddr>, cfg: Thresholds,
                                                       cs: seq<Checked>, ds: seq<Checked>)
    requires |s.flags| == |addrs| && OneEach(cs) && multiset(cs) == multiset(ds)
    ensures RecordAll(s, addrs, cfg, cs) == RecordAll(s, addrs, cfg, ds)
  {
    PermutedOneEach(cs, ds);
    forall a ensures HistoryOf(cs, a) == HistoryOf(ds, a) {
      SameHistory(cs, ds, a);
    }
    OrderAcrossBackendsIsIrrelevant(s, addrs, cfg, cs, ds);
  }

  lemma {:induction false} SameHistory(cs: seq<Checked>, ds: seq<Checked>, a: SocketAddr)
    requires OneEach(cs) && OneEach(ds) && multiset(cs) == multiset(ds)
    ensures HistoryOf(cs, a) == HistoryOf(ds, a)
  {
    if k: nat :| k < |cs| && cs[k].0 == a {
      assert cs[k] in multiset(ds);
      var l: nat :| l < |ds| && ds[l] == cs[k];
      HistoryOfOne(cs, k);
      HistoryOfOne(ds, l);
    } else {
      HistoryOfNone(cs, a);
      forall l | 0 <= l < |ds| ensures ds[l].0 != a {
        assert ds[l] in multiset(cs);
      }
      HistoryOfNone(ds, a);
    }
  }

  lemma {:induction false} PermutedOneEach(cs: seq<Checked>, ds: seq<Checked>)
    requires OneEach(cs) && multiset(cs) == multiset(ds)
    ensures OneEach(ds)
  {
    forall i, j | 0 <= i < j < |ds| ensures ds[i].0 != ds[j].0 {
      if ds[i].0 == ds[j].0 {
        assert ds[i] in multiset(cs) && ds[j] in multiset(cs);
        var k :| 0 <= k < |cs| && cs[k] == ds[i];
        var l :| 0 <= l < |cs| && cs[l] == ds[j];
        assert k == l;
        TwiceInSequence(ds, i, j);
        OnceInSequence(cs, k);
      }
    }
  }

  lemma {:induction false} TwiceInSequence(ds: seq<Checked>, i: nat, j: nat)
    requires i < j < |ds| && ds[i] == ds[j]
    ensures multiset(ds)[ds[i]] >= 2
  {
    assert ds == ds[..j] + [ds[j]] + ds[j + 1..];
    assert ds[i] in ds[..j];
  }

  lemma {:induction false} OnceInSequence(cs: seq<Checked>, k: nat)
    requires k < |cs| && OneEach(cs)
    ensures multiset(cs)[cs[k]] == 1
  {
    assert cs == cs[..k] + [cs[k]] + cs[k + 1..];
    assert cs[k] !in cs[..k] && cs[k] !in cs[k + 1..];
  }

  ghost predicate NoPanic(tick: seq<Joined>) {
    forall j | 0 <= j < |tick| :: tick[j].Finished?
  }

  lemma {:induction false} ProcessedCounts(tick: seq<Joined>, c: Checked)
    requires NoPanic(tick)
    ensures multiset(Processed(tick))[c] == multiset(tick)[Finished(c.0, c.1)]
  {
    if |tick| > 0 {
      ProcessedCounts(tick[1..], c);
      assert tick == [tick[0]] + tick[1..];
    }
  }

  /** The tasks of a tick may join in any order, if none panicked and no address reports twice. */
  lemma {:induction false} JoinOrderIsIrrelevant(s: CheckerState, addrs: seq<SocketAddr>, cfg: Thresholds,
                                                 tick: seq<Joined>, other: seq<Joined>)
    requires |s.flags| == |addrs| && multiset(tick) == multiset(other) && NoPanic(tick)
    requires forall i, j | 0 <= i < j < |tick| :: tick[i].addr != tick[j].addr
    ensures Tick(s, addrs, cfg, tick) == Tick(s, addrs, cfg, other)
  {
    hide RecordAll, Joins;
    forall j | 0 <= j < |other| ensures other[j].Finished? {
      assert other[j] in multiset(tick);
    }
    forall c: Checked ensures multiset(Processed(tick))[c] == multiset(Processed(other))[c] {
      ProcessedCounts(tick, c);
      ProcessedCounts(other, c);
    }
    assert multiset(Processed(tick)) == multiset(Processed(other));
    ProcessedExact(tick);
    CompletionOrderIsIrrelevant(s, addrs, cfg, Processed(tick), Processed(other));
  }

  /** After a tick exactly the statuses of pool addresses are left, as the results made them. */
  lemma {:induction false} PrunedToPool(s: CheckerState, addrs: seq<SocketAddr>, cfg: Thresholds, tick: seq<Joined>,
                                        a: SocketAddr)
    requires |s.flags| == |addrs|
    ensures var before, after := RecordAll(s, addrs, cfg, Processed(tick)), Tick(s, addrs, cfg, tick);
            && (a in after.status <==> a in before.status && a in addrs)
            && (a in after.status ==> after.status[a] == before.status[a])
            && after.flags == before.flags && after.gauges == before.gauges
  {
  }

  // ---------- Whole runs ----------

  /** Every backend up, nothing counted, no gauge set. */
  function Start(n: nat): CheckerState {
    CheckerState(map[], seq(n, _ => true), map[])
  }

  function AllProcessed(ticks: seq<seq<Joined>>): seq<Checked> {
    if |ticks| == 0 then [] else AllProcessed(ticks[..|ticks| - 1]) + Processed(ticks[|ticks| - 1])
  }

  ghost predicate FromPool(cs: seq<Checked>, addrs: seq<SocketAddr>) {
    forall c | c in cs :: c.0 in addrs
  }

  /** The results for one address among the first m joined tasks of a tick. */
  function Reports(tick: seq<Joined>, m: nat, a: SocketAddr): seq<CheckResult>
    requires m <= |tick|
  {
    if m == 0 then [] else
    Reports(tick, m - 1, a) + if tick[m - 1].Finished? && tick[m - 1].addr == a then [tick[m - 1].result] else []
  }

  /** The results for one address over whole ticks, each up to its first panic. */
  function ReportsOf(ticks: seq<seq<Joined>>, a: SocketAddr): seq<CheckResult> {
    if |ticks| == 0 then [] else
    var last := ticks[|ticks| - 1];
    ReportsOf(ticks[..|ticks| - 1], a) + Reports(last, Joins(last), a)
  }

  /** The addresses that report are those of the pool. */
  ghost predicate OfPool(ticks: seq<seq<Joined>>, addrs: seq<SocketAddr>) {
    forall t, j | 0 <= t < |ticks| && 0 <= j < Joins(ticks[t]) :: ticks[t][j].addr in addrs
  }

  lemma {:induction false} HistoryOfSum(cs: seq<Checked>, ds: seq<Checked>, a: SocketAddr)
    ensures HistoryOf(cs + ds, a) == HistoryOf(cs, a) + HistoryOf(ds, a)
  {
    if |ds| == 0 {
      assert cs + ds == cs;
    } else {
      HistoryOfSum(cs, ds[..|ds| - 1], a);
      assert (cs + ds)[..|cs + ds| - 1] == cs + ds[..|ds| - 1];
    }
  }

  lemma {:induction false} HistoryIsReports(tick: seq<Joined>, m: nat, a: SocketAddr)
    requires m <= Joins(tick)
    ensures m <= |Processed(tick)| && HistoryOf(Processed(tick)[..m], a) == Reports(tick, m, a)
  {
    ProcessedExact(tick);
    hide Processed, Joins;
    if m > 0 {
      HistoryIsReports(tick, m - 1, a);
      assert Processed(tick)[..m][..m - 1] == Processed(tick)[..m - 1];
      assert tick[m - 1] == Finished(Processed(tick)[m - 1].0, Processed(tick)[m - 1].1);
    }
  }

  /** What the checker processes for an address is what the raw ticks report for it. */
  lemma {:induction false} HistoryIsReportsOf(ticks: seq<seq<Joined>>, a: SocketAddr)
    ensures HistoryOf(AllProcessed(ticks), a) == ReportsOf(ticks, a)
  {
    hide Processed, HistoryOf, Reports;
    if |ticks| == 0 {
      NoHistory(a);
    } else {
      var before, last := ticks[..|ticks| - 1], ticks[|ticks| - 1];
      HistoryIsReportsOf(before, a);
      HistoryOfSum(AllProcessed(before), Processed(last), a);
      ProcessedExact(last);
      HistoryIsReports(last, Joins(last), a);
      assert Processed(last)[..Joins(last)] == Processed(last);
    }
  }

  lemma {:induction false} NoHistory(a: SocketAddr)
    ensures HistoryOf([], a) == []
  {
  }

  lemma {:induction false} ProcessedOfPool(ticks: seq<seq<Joined>>, addrs: seq<SocketAddr>)
    ensures OfPool(ticks, addrs) <==> FromPool(AllProcessed(ticks), addrs)
  {
    if |ticks| > 0 {
      var before, last := ticks[..|ticks| - 1], ticks[|ticks| - 1];
      ProcessedOfPool(before, addrs);
      ProcessedExact(last);
      hide Processed, Joins;
      var p := Processed(last);
      assert OfPool(ticks, addrs) <==>
        OfPool(before, addrs) && forall j | 0 <= j < Joins(last) :: last[j].addr in addrs;
      assert forall j | 0 <= j < |p| :: p[j] in p && last[j].addr == p[j].0;
    }
  }

  lemma {:induction false} RecordAllAppend(s: CheckerState, addrs: seq<SocketAddr>, cfg: Thresholds,
                                           cs: seq<Checked>, ds: seq<Checked>)
    requires |s.flags| == |addrs|
    ensures RecordAll(s, addrs, cfg, cs + ds) == RecordAll(RecordAll(s, addrs, cfg, cs), addrs, cfg, ds)
  {
    if |ds| == 0 {
      assert cs + ds == cs;
    } else {
      RecordAllAppend(s, addrs, cfg, cs, ds[..|ds| - 1]);
      assert (cs + ds)[..|cs + ds| - 1] == cs + ds[..|ds| - 1];
    }
  }

  lemma {:induction false} OnlyPoolStatuses(s: CheckerState, addrs: seq<SocketAddr>, cfg: Thresholds, cs: seq<Checked>)
    requires |s.flags| == |addrs| && FromPool(cs, addrs) && forall a | a in s.status :: a in addrs
    ensures forall a | a in RecordAll(s, addrs, cfg, cs).status :: a in addrs
  {
    if |cs| > 0 {
      OnlyPoolStatuses(s, addrs, cfg, cs[..|cs| - 1]);
    }
  }

  /** Pruning never drops anything, and a run is the fold of its processed results. */
  lemma {:induction false} TicksAreOneFold(addrs: seq<SocketAddr>, cfg: Thresholds, ticks: seq<seq<Joined>>)
    requires OfPool(ticks, addrs)
    ensures Ticks(Start(|addrs|), addrs, cfg, ticks) == RecordAll(Start(|addrs|), addrs, cfg, AllProcessed(ticks))
  {
    hide Record;
    if |ticks| > 0 {
      var before, last := ticks[..|ticks| - 1], ticks[|ticks| - 1];
      assert OfPool(before, addrs);
      hide OfPool;
      ProcessedOfPool(ticks, addrs);
      TicksAreOneFold(addrs, cfg, before);
      RecordAllAppend(Start(|addrs|), addrs, cfg, AllProcessed(before), Processed(last));
      OnlyPoolStatuses(Start(|addrs|), addrs, cfg, AllProcessed(ticks));
      var s := RecordAll(Start(|addrs|), addrs, cfg, AllProcessed(ticks));
      assert Prune(s, addrs).status == s.status;
    }
  }

  /** From the start, a cell carries the replayed history of its address; its gauge is set by the first flip. */
  lemma {:induction false} CellFollowsHistory(addrs: seq<SocketAddr>, cfg: Thresholds, h: seq<CheckResult>,
                                              a: SocketAddr)
    requires a in addrs
    ensures var c := CellRun(View(Start(|addrs|), addrs, a), cfg, h);
            && c.flag == Some(Replay(h, cfg).flag)
            && (|h| > 0 ==> c.status == Some(Replay(h, cfg).status))
            && (Positive(cfg) ==> c.gauge == if Flips(h, cfg) == 0 then None else c.flag)
  {
    if |h| > 0 {
      CellFollowsHistory(addrs, cfg, h[..|h| - 1], a);
    }
  }

  /** After any ticks the pool and the checker hold, for each backend, the replay of its own results. */
  lemma {:induction false} StateAfterRun(addrs: seq<SocketAddr>, cfg: Thresholds, ticks: seq<seq<Joined>>, i: nat)
    requires i < |addrs| && IsFirst(addrs, i) && OfPool(ticks, addrs)
    ensures var h, s := ReportsOf(ticks, addrs[i]), Ticks(Start(|addrs|), addrs, cfg, ticks);
            && s.flags[i] == Replay(h, cfg).flag
            && (|h| > 0 ==> addrs[i] in s.status && s.status[addrs[i]] == Replay(h, cfg).status)
            && (Positive(cfg) ==> (addrs[i] in s.gauges <==> Flips(h, cfg) > 0))
            && (Positive(cfg) && addrs[i] in s.gauges ==> s.gauges[addrs[i]] == s.flags[i])
  {
    hide CellRun, RecordAll, Ticks, Replay, Flips, AllProcessed, FromPool, OfPool, ReportsOf, HistoryOf;
    var a, cs := addrs[i], AllProcessed(ticks);
    ProcessedOfPool(ticks, addrs);
    HistoryIsReportsOf(ticks, a);
    var start := Start(|addrs|);
    TicksAreOneFold(addrs, cfg, ticks);
    BackendsAreIndependent(start, addrs, cfg, cs, a);
    CellFollowsHistory(addrs, cfg, HistoryOf(cs, a), a);
    assert View(RecordAll(start, addrs, cfg, cs), addrs, a).flag == Some(RecordAll(start, addrs, cfg, cs).flags[i]);
  }

  /**
   After any ticks, in any completion order, the flag of a backend is down exactly when its own results
   contain enough failures in a row not yet followed by enough successes in a row.
   */
  lemma {:induction false} FlagAfterRun(addrs: seq<SocketAddr>, cfg: Thresholds, ticks: seq<seq<Joined>>, i: nat)
    requires Positive(cfg) && i < |addrs| && IsFirst(addrs, i) && OfPool(ticks, addrs)
    ensures var h := ReportsOf(ticks, addrs[i]);
            !Ticks(Start(|addrs|), addrs, cfg, ticks).flags[i] <==> Down(h, cfg)
  {
    hide Ticks, Replay;
    StateAfterRun(addrs, cfg, ticks, i);
    FlagMeaning(ReportsOf(ticks, addrs[i]), cfg);
  }

  /** The flag of backend i is down exactly when its own results say so. */
  ghost predicate FlagFollows(addrs: seq<SocketAddr>, cfg: Thresholds, ticks: seq<seq<Joined>>, i: nat)
    requires i < |addrs|
  {
    !Ticks(Start(|addrs|), addrs, cfg, ticks).flags[i] <==> Down(ReportsOf(ticks, addrs[i]), cfg)
  }

  /** It does so after every run. */
  ghost predicate AlwaysFollows(addrs: seq<SocketAddr>, cfg: Thresholds, i: nat)
    requires i < |addrs|
  {
    forall ticks | OfPool(ticks, addrs) :: FlagFollows(addrs, cfg, ticks, i)
  }

  /** n ticks in a row with one failed check of the address in each. */
  function FailingTicks(a: SocketAddr, n: nat): (ticks: seq<seq<Joined>>)
    ensures |ticks| == n
  {
    if n == 0 then [] else FailingTicks(a, n - 1) + [[Finished(a, Unhealthy)]]
  }

  lemma {:induction false} FailingHistory(a: SocketAddr, n: nat, addrs: seq<SocketAddr>)
    requires a in addrs
    ensures ReportsOf(FailingTicks(a, n), a) == Repeat(Unhealthy, n)
    ensures OfPool(FailingTicks(a, n), addrs)
  {
    if n > 0 {
      var tick := [Finished(a, Unhealthy)];
      OneFailure(a);
      hide Joins, Reports;
      FailingHistory(a, n - 1, addrs);
      assert FailingTicks(a, n)[..n - 1] == FailingTicks(a, n - 1);
      assert FailingTicks(a, n)[n - 1] == tick;
    }
  }

  lemma {:induction false} OneFailure(a: SocketAddr)
    ensures var tick := [Finished(a, Unhealthy)]; Joins(tick) == 1 && Reports(tick, 1, a) == [Unhealthy]
  {
    assert Joins([Finished(a, Unhealthy)][1..]) == 0;
    assert Reports([Finished(a, Unhealthy)], 0, a) == [];
  }

  lemma {:induction false} ShadowedFlagStandsStill(addrs: seq<SocketAddr>, cfg: Thresholds, ticks: seq<seq<Joined>>,
                                                   i: nat)
    requires i < |addrs| && !IsFirst(addrs, i) && OfPool(ticks, addrs)
    ensures Ticks(Start(|addrs|), addrs, cfg, ticks).flags[i]
  {
    hide Ticks, RecordAll;
    TicksAreOneFold(addrs, cfg, ticks);
    ShadowedBackendNeverMarked(Start(|addrs|), addrs, cfg, AllProcessed(ticks), i);
  }

  /** The flag of a backend means what it should in every run exactly when no earlier backend has its address. */
  lemma {:induction false} FlagMeaningIffFirst(addrs: seq<SocketAddr>, cfg: Thresholds, i: nat)
    requires Positive(cfg) && i < |addrs|
    ensures AlwaysFollows(addrs, cfg, i) <==> IsFirst(addrs, i)
  {
    hide Ticks, IsFirst, FromPool, AllProcessed, Down;
    if IsFirst(addrs, i) {
      forall ticks | OfPool(ticks, addrs) ensures FlagFollows(addrs, cfg, ticks, i) {
        FlagAfterRun(addrs, cfg, ticks, i);
      }
    } else {
      var ticks := FailingTicks(addrs[i], cfg.unhealthy);
      FailingHistory(addrs[i], cfg.unhealthy, addrs);
      ShadowedFlagStandsStill(addrs, cfg, ticks, i);
      FailuresAreDown(cfg);
      assert !FlagFollows(addrs, cfg, ticks, i);
    }
  }

  lemma {:induction false} FailuresAreDown(cfg: Thresholds)
    ensures Down(Repeat(Unhealthy, cfg.unhealthy), cfg)
  {
    var h := Repeat(Unhealthy, cfg.unhealthy);
    RepeatRun(Unhealthy, cfg.unhealthy);
    assert h[..|h|] == h;
    assert DownSince(h, cfg, |h|);
  }

  /** Every flag of the pool means what it should in every run exactly when the parsed addresses are distinct. */
  lemma {:induction false} EveryFlagFollowsIffDistinct(addrs: seq<SocketAddr>, cfg: Thresholds)
    requires Positive(cfg)
    ensures (forall i | 0 <= i < |addrs| :: AlwaysFollows(addrs, cfg, i)) <==> Distinct(addrs)
  {
    hide AlwaysFollows;
    forall i | 0 <= i < |addrs| ensures AlwaysFollows(addrs, cfg, i) <==> IsFirst(addrs, i) {
      FlagMeaningIffFirst(addrs, cfg, i);
    }
    DistinctIffAllFirst(addrs);
  }

  lemma {:induction false} DistinctIffAllFirst(addrs: seq<SocketAddr>)
    ensures Distinct(addrs) <==> forall i | 0 <= i < |addrs| :: IsFirst(addrs, i)
  {
    if Distinct(addrs) {
      forall i | 0 <= i < |addrs| ensures IsFirst(addrs, i) {
        var r := FindAddr(addrs, addrs[i]);
        assert addrs[i] in addrs;
      }
    } else {
      var i, j :| 0 <= i < j < |addrs| && addrs[i] == addrs[j];
      assert addrs[..j][i] == addrs[j];
      assert !IsFirst(addrs, j);
    }
  }

  /** Backend i is in the list exactly when its own results do not have it down. */
  ghost predicate ListedAsChecked(healthy: seq<Backend>, backends: seq<Backend>, cfg: Thresholds,
                                  ticks: seq<seq<Joined>>, i: nat)
    requires i < |backends|
  {
    backends[i] in healthy <==> !Down(ReportsOf(ticks, backends[i].addr), cfg)
  }

  /** A configured pool watched by a fresh checker: what its cached list means afterwards. */
  method Monitor(configs: seq<BackendConfig>, cfg: Thresholds, ticks: seq<seq<Joined>>)
    returns (r: Result<BackendPool, PoolError>)
    requires Positive(cfg)
    ensures r.Success? <==> |configs| > 0 && forall i | 0 <= i < |configs| :: configs[i].addr.Some?
    ensures r.Success? ==> |r.value.backends| == |configs|
    ensures r.Success? ==> forall i | 0 <= i < |configs| :: Some(r.value.backends[i].addr) == configs[i].addr
    ensures r.Success? && OfPool(ticks, Addresses(r.value.backends)) ==>
      forall i | 0 <= i < |configs| && IsFirst(Addresses(r.value.backends), i) ::
        ListedAsChecked(r.value.HealthyBackends(), r.value.backends, cfg, ticks, i)
  {
    hide Ticks, HealthyOnly, Down, FromPool, AllProcessed, HistoryOf, IsFirst, ListedAsChecked, Flags, Addresses;
    r := BackendPool.FromConfig(configs);
    assert r.Failure? ==> r.error.NoBackends? || r.error.AddrParseError?;
    if r.Success? {
      var pool := r.value;
      ghost var addrs := Addresses(pool.backends);
      assert Flags(pool.backends) == Start(|addrs|).flags;
      var checker := new HealthChecker(cfg, pool);
      var _ := checker.Run(ticks);
      if OfPool(ticks, addrs) {
        forall i | 0 <= i < |configs| && IsFirst(addrs, i)
          ensures ListedAsChecked(pool.healthyCache, pool.backends, cfg, ticks, i)
        {
          ListedAfterRun(pool.backends, cfg, ticks, i);
        }
        assert pool.HealthyBackends() == pool.healthyCache;
      }
    }
  }

  lemma {:induction false} ListedAfterRun(backends: seq<Backend>, cfg: Thresholds, ticks: seq<seq<Joined>>, i: nat)
    requires Positive(cfg) && i < |backends| && IsFirst(Addresses(backends), i)
    requires OfPool(ticks, Addresses(backends))
    requires Flags(backends) == Ticks(Start(|backends|), Addresses(backends), cfg, ticks).flags
    ensures ListedAsChecked(HealthyOnly(backends), backends, cfg, ticks, i)
  {
    hide Ticks, HealthyOnly, Down;
    FlagAfterRun(Addresses(backends), cfg, ticks, i);
    HealthyOnlyMembers(backends, backends[i]);
    assert Flags(backends)[i] == backends[i].healthy;
  }
}
