/**
 Least Connections with its scan taken one counter at a time: a request that scans holds neither guard nor choice,
 and other requests take and drop guards between two of its reads. The ceiling of LeastConnections survives this
 for every number of requests exactly when there are at most two backends or at most two requests without a guard.
 */
module LeastScan {
  import opened Arithmetic
  import opened Sums
  import opened Words
  import LC = LeastConnections

  /** A scan: the next position to read, and the least count so far with its position. */
  datatype Scan = Scan(next: nat, best: nat, least: nat)

  const FRESH := Scan(0, 0, USIZE_MAX)

  /** Guards and finished choices by backend, and the scans under way, oldest first. */
  datatype State = State(active: seq<nat>, pending: seq<nat>, scans: seq<Scan>)

  datatype Event = Begin | Read(k: nat) | TakeGuard(b: nat) | TurnAway(b: nat) | DropGuard(b: nat)

  /** The loop body of the scan on the count x. */
  function Seen(c: Scan, x: nat): Scan {
    if x < c.least then Scan(c.next + 1, c.next, x) else c.(next := c.next + 1)
  }

  ghost predicate ScanOk(n: nat, c: Scan) {
    c.next < n && (c.next == 0 ==> c == FRESH) && (c.next > 0 ==> c.best < c.next)
  }

  ghost predicate Shaped(n: nat, s: State) {
    && n > 0 && |s.active| == |s.pending| == n
    && forall k | 0 <= k < |s.scans| :: ScanOk(n, s.scans[k])
  }

  function Without(scans: seq<Scan>, k: nat): seq<Scan>
    requires k < |scans|
  {
    scans[..k] + scans[k + 1..]
  }

  /** Scan k reads one counter; after the last one it has chosen. */
  function ReadStep(n: nat, s: State, k: nat): (s': State)
    requires Shaped(n, s) && k < |s.scans|
  {
    var c := Seen(s.scans[k], s.active[s.scans[k].next]);
    if c.next < n then s.(scans := s.scans[k := c])
    else s.(scans := Without(s.scans, k), pending := s.pending[c.best := s.pending[c.best] + 1])
  }

  /** One event; an event that is not possible changes nothing. */
  function Apply(n: nat, s: State, e: Event): (s': State)
    requires Shaped(n, s)
    ensures Shaped(n, s')
  {
    match e
    case Begin => s.(scans := s.scans + [FRESH])
    case Read(k) => if k < |s.scans| then ReadStep(n, s, k) else s
    case TakeGuard(b) =>
      if b < n && s.pending[b] > 0 then
        s.(active := s.active[b := s.active[b] + 1], pending := s.pending[b := s.pending[b] - 1])
      else s
    case TurnAway(b) =>
      if b < n && s.pending[b] > 0 then s.(pending := s.pending[b := s.pending[b] - 1]) else s
    case DropGuard(b) =>
      if b < n && s.active[b] > 0 then s.(active := s.active[b := s.active[b] - 1]) else s
  }

  function Start(n: nat): State {
    State(seq(n, _ => 0), seq(n, _ => 0), [])
  }

  function Run(n: nat, events: seq<Event>): (s: State)
    requires n > 0
    ensures Shaped(n, s)
  {
    if |events| == 0 then Start(n)
    else Apply(n, Run(n, events[..|events| - 1]), events[|events| - 1])
  }

  /** The requests that scan or have chosen and hold no guard. */
  function Unguarded(n: nat, s: State): int
    requires |s.pending| == n
  {
    SumTo(s.pending, n) + |s.scans|
  }

  /** At most K requests in flight, at most r of them without a guard. */
  ghost predicate Limits(n: nat, s: State, K: nat, r: nat)
    requires Shaped(n, s)
  {
    SumTo(s.active, n) + Unguarded(n, s) <= K && Unguarded(n, s) <= r
  }

  /** The limits hold after every prefix of the events. */
  ghost predicate Within(n: nat, events: seq<Event>, K: nat, r: nat)
    requires n > 0
  {
    && Limits(n, Run(n, events), K, r)
    && (|events| > 0 ==> Within(n, events[..|events| - 1], K, r))
  }

  // ---------- Counting scans ----------

  ghost function Number(scans: seq<Scan>, p: Scan -> bool): (m: nat)
    ensures m <= |scans|
  {
    if |scans| == 0 then 0 else Number(scans[..|scans| - 1], p) + if p(scans[|scans| - 1]) then 1 else 0
  }

  lemma {:induction false} NumberOfSum(a: seq<Scan>, b: seq<Scan>, p: Scan -> bool)
    ensures Number(a + b, p) == Number(a, p) + Number(b, p)
  {
    if |b| == 0 {
      assert a + b == a;
    } else {
      NumberOfSum(a, b[..|b| - 1], p);
      assert (a + b)[..|a + b| - 1] == a + b[..|b| - 1];
    }
  }

  lemma {:induction false} NumberOfOne(c: Scan, p: Scan -> bool)
    ensures Number([c], p) == if p(c) then 1 else 0
  {
    assert Number([c][..0], p) == 0;
  }

  lemma {:induction false} NumberChange(scans: seq<Scan>, p: Scan -> bool, k: nat, c: Scan)
    requires k < |scans|
    ensures Number(Without(scans, k), p) == Number(scans, p) - if p(scans[k]) then 1 else 0
    ensures Number(scans[k := c], p) == Number(Without(scans, k), p) + if p(c) then 1 else 0
  {
    var a, b := scans[..k], scans[k + 1..];
    assert scans == a + [scans[k]] + b && scans[k := c] == a + [c] + b;
    NumberOfSum(a, b, p);
    NumberOfSum(a + [scans[k]], b, p);
    NumberOfSum(a, [scans[k]], p);
    NumberOfSum(a + [c], b, p);
    NumberOfSum(a, [c], p);
    NumberOfOne(scans[k], p);
    NumberOfOne(c, p);
  }

  lemma {:induction false} NumberAppend(scans: seq<Scan>, p: Scan -> bool, c: Scan)
    ensures Number(scans + [c], p) == Number(scans, p) + if p(c) then 1 else 0
  {
    NumberOfSum(scans, [c], p);
    NumberOfOne(c, p);
  }

  // ---------- Low scans ----------

  /** The least level that not all backends can reach. */
  function Level(n: nat, K: nat, r: nat): (h: nat)
    requires n > 0 && r <= K
    ensures h > 0
  {
    (K - r) / n + 1
  }

  lemma {:induction false} LevelRoom(n: nat, K: nat, r: nat)
    requires n > 0 && r <= K
    ensures K <= n * Level(n, K, r) + r - 1
    ensures LC.Ceiling(n, K, r) == Level(n, K, r) - 1 + r
  {
    var q := (K - r) / n;
    assert K - r == n * q + (K - r) % n;
    Distribute(n, q, 1);
  }

  /** The scan holds a count below h. */
  predicate IsLow(c: Scan, h: nat) {
    c.next > 0 && c.least < h
  }

  ghost function LowOn(b: nat, h: nat): Scan -> bool {
    (c: Scan) => IsLow(c, h) && c.best == b
  }

  /** The load of b, with the low scans that may still choose it. */
  ghost function Claim(n: nat, s: State, b: nat, h: nat): nat
    requires Shaped(n, s) && b < n
  {
    s.active[b] + s.pending[b] + Number(s.scans, LowOn(b, h))
  }

  /** Choices and scans on one backend are among all the requests without a guard. */
  lemma {:induction false} ClaimWithin(n: nat, s: State, b: nat, h: nat)
    requires Shaped(n, s) && b < n
    ensures Claim(n, s, b, h) <= s.active[b] + Unguarded(n, s)
  {
    EntryAtMostSum(s.pending, n, b);
  }

  /** A read leaves the number of requests without a guard. */
  lemma {:induction false} ReadKeepsUnguarded(n: nat, s: State, k: nat)
    requires Shaped(n, s) && k < |s.scans|
    ensures ReadStep(n, s, k).active == s.active && Unguarded(n, ReadStep(n, s, k)) == Unguarded(n, s)
  {
    var c := Seen(s.scans[k], s.active[s.scans[k].next]);
    if c.next == n {
      SumToUpdate(s.pending, n, c.best, s.pending[c.best] + 1);
    }
  }

  /** Scan k, which holds no low count, makes its choice of b by this read. */
  ghost predicate ChoosesHigh(n: nat, s: State, k: nat, b: nat, h: nat)
    requires Shaped(n, s) && k < |s.scans|
  {
    var c := Seen(s.scans[k], s.active[s.scans[k].next]);
    c.next == n && c.best == b && !IsLow(c, h)
  }

  /** A read lifts a claim above h - 1 + r only when a scan that is not low chooses. */
  lemma {:induction false} ReadKeepsClaim(n: nat, s: State, k: nat, b: nat, h: nat, r: nat)
    requires Shaped(n, s) && k < |s.scans| && b < n && Unguarded(n, s) <= r
    requires Claim(n, s, b, h) <= h - 1 + r && s.active[s.scans[k].next] < USIZE_MAX
    ensures Claim(n, ReadStep(n, s, k), b, h) <= h - 1 + r
         || (ChoosesHigh(n, s, k, b, h) && Claim(n, ReadStep(n, s, k), b, h) == Claim(n, s, b, h) + 1)
  {
    var c := s.scans[k];
    var c' := Seen(c, s.active[c.next]);
    assert ScanOk(n, c);
    NumberChange(s.scans, LowOn(b, h), k, c');
    hide Number, Unguarded;
    if LowOn(b, h)(c') && !LowOn(b, h)(c) {
      ReadKeepsUnguarded(n, s, k);
      ClaimWithin(n, ReadStep(n, s, k), b, h);
    }
  }

  /** Taking or dropping a guard, and turning away, lift no claim. */
  lemma {:induction false} OthersKeepClaim(n: nat, s: State, e: Event, b: nat, h: nat)
    requires Shaped(n, s) && b < n && !e.Read?
    ensures Claim(n, Apply(n, s, e), b, h) <= Claim(n, s, b, h)
  {
    if e.Begin? {
      NumberAppend(s.scans, LowOn(b, h), FRESH);
    }
  }

  /** A counter a scan can read is below the sentinel. */
  lemma {:induction false} BelowSentinel(n: nat, s: State, b: nat, K: nat, r: nat)
    requires Shaped(n, s) && b < n && Limits(n, s, K, r) && K <= USIZE_MAX && |s.scans| > 0
    ensures s.active[b] < USIZE_MAX
  {
    EntryAtMostSum(s.active, n, b);
    SumToAtLeast(s.pending, n, 0);
  }

  // ---------- What any race can do ----------

  /** A scan that has found nothing below h and has yet to read b. */
  ghost function HighBefore(b: nat, h: nat): Scan -> bool {
    (c: Scan) => 0 < c.next <= b && c.least >= h
  }

  ghost predicate RaceInv(n: nat, s: State, h: nat, r: nat)
    requires Shaped(n, s)
  {
    forall b | 0 <= b < n :: Claim(n, s, b, h) + Number(s.scans, HighBefore(b, h)) <= h - 1 + r
  }

  lemma {:induction false} TwoEntries(a: seq<nat>, n: nat, i: nat, j: nat)
    requires i < j < n <= |a|
    ensures a[i] + a[j] <= SumTo(a, n)
  {
    if j < n - 1 {
      TwoEntries(a, n - 1, i, j);
    } else {
      EntryAtMostSum(a, n - 1, i);
    }
  }

  /** Low scans on b and high scans that have yet to read b are different ones. */
  lemma {:induction false} LowAndHigh(scans: seq<Scan>, b: nat, h: nat)
    ensures Number(scans, LowOn(b, h)) + Number(scans, HighBefore(b, h)) <= |scans|
  {
    if |scans| > 0 {
      LowAndHigh(scans[..|scans| - 1], b, h);
    }
  }

  lemma {:induction false} RaceClaimWithin(n: nat, s: State, b: nat, h: nat)
    requires Shaped(n, s) && b < n
    ensures Claim(n, s, b, h) + Number(s.scans, HighBefore(b, h)) <= s.active[b] + Unguarded(n, s)
  {
    EntryAtMostSum(s.pending, n, b);
    LowAndHigh(s.scans, b, h);
  }

  /** 1 for a scan that counts against b. */
  ghost function Stake(c: Scan, b: nat, h: nat): nat {
    (if LowOn(b, h)(c) then 1 else 0) + if HighBefore(b, h)(c) then 1 else 0
  }

  /** The same once the scan has read x; a scan that is through has chosen. */
  ghost function StakeAfter(n: nat, c: Scan, x: nat, b: nat, h: nat): nat {
    var c' := Seen(c, x);
    if c'.next < n then Stake(c', b, h) else if c'.best == b then 1 else 0
  }

  lemma {:induction false} ReadMovesStake(n: nat, s: State, k: nat, b: nat, h: nat)
    requires Shaped(n, s) && k < |s.scans| && b < n
    ensures var s' := ReadStep(n, s, k);
            var c := s.scans[k];
            Claim(n, s', b, h) + Number(s'.scans, HighBefore(b, h))
            == Claim(n, s, b, h) + Number(s.scans, HighBefore(b, h)) - Stake(c, b, h)
               + StakeAfter(n, c, s.active[c.next], b, h)
  {
    var c := s.scans[k];
    var c' := Seen(c, s.active[c.next]);
    assert ScanOk(n, c);
    NumberChange(s.scans, LowOn(b, h), k, c');
    NumberChange(s.scans, HighBefore(b, h), k, c');
    hide Number, LowOn, HighBefore;
  }

  /** A read of b at h or more, or of another backend below h, adds nothing to what counts against b. */
  lemma {:induction false} StakeKept(n: nat, c: Scan, x: nat, b: nat, h: nat)
    requires n >= 2 && ScanOk(n, c) && x < USIZE_MAX && b < n
    requires if c.next == b then x >= h else x < h
    ensures StakeAfter(n, c, x, b, h) <= Stake(c, b, h)
  {
  }

  lemma {:induction false} RaceRead(n: nat, s: State, k: nat, b: nat, h: nat, K: nat, r: nat)
    requires n >= 2 && Shaped(n, s) && k < |s.scans| && b < n && Limits(n, s, K, r)
    requires K <= 2 * h + r - 1 && s.active[s.scans[k].next] < USIZE_MAX
    requires Claim(n, s, b, h) + Number(s.scans, HighBefore(b, h)) <= h - 1 + r
    ensures var s' := ReadStep(n, s, k); Claim(n, s', b, h) + Number(s'.scans, HighBefore(b, h)) <= h - 1 + r
  {
    var j := s.scans[k].next;
    assert ScanOk(n, s.scans[k]);
    ReadKeepsUnguarded(n, s, k);
    RaceClaimWithin(n, ReadStep(n, s, k), b, h);
    hide Number, Unguarded, Stake, StakeAfter, ReadStep, Claim;
    if j != b {
      TwoEntries(s.active, n, if j < b then j else b, if j < b then b else j);
    }
    if (j == b && s.active[j] >= h) || (j != b && s.active[j] < h) {
      ReadMovesStake(n, s, k, b, h);
      StakeKept(n, s.scans[k], s.active[j], b, h);
    }
  }

  lemma {:induction false} RaceOthers(n: nat, s: State, e: Event, h: nat, r: nat)
    requires Shaped(n, s) && RaceInv(n, s, h, r) && !e.Read?
    ensures RaceInv(n, Apply(n, s, e), h, r)
  {
    hide Number, Claim;
    forall b | 0 <= b < n
      ensures Claim(n, Apply(n, s, e), b, h) + Number(Apply(n, s, e).scans, HighBefore(b, h)) <= h - 1 + r
    {
      OthersKeepClaim(n, s, e, b, h);
      NumberAppend(s.scans, HighBefore(b, h), FRESH);
    }
  }

  lemma {:induction false} RaceStep(n: nat, s: State, e: Event, h: nat, K: nat, r: nat)
    requires n >= 2 && Shaped(n, s) && RaceInv(n, s, h, r) && Limits(n, s, K, r)
    requires K <= 2 * h + r - 1 && K <= USIZE_MAX
    ensures RaceInv(n, Apply(n, s, e), h, r)
  {
    hide Limits, Claim, Number, ReadStep;
    var s' := Apply(n, s, e);
    if !e.Read? {
      RaceOthers(n, s, e, h, r);
    } else if e.k < |s.scans| {
      BelowSentinel(n, s, s.scans[e.k].next, K, r);
      forall b | 0 <= b < n
        ensures Claim(n, s', b, h) + Number(s'.scans, HighBefore(b, h)) <= h - 1 + r
      {
        RaceRead(n, s, e.k, b, h, K, r);
      }
    }
  }

  // ---------- At most two requests without a guard ----------

  /** How far the first m counters exceed the level h, all together. */
  function Over(a: seq<nat>, h: nat, m: nat): nat
    requires m <= |a|
  {
    if m == 0 then 0 else Over(a, h, m - 1) + if a[m - 1] > h then a[m - 1] - h else 0
  }

  /** How far the counters from position i on fall short of it. */
  function Lack(a: seq<nat>, h: nat, i: nat): nat
    requires i <= |a|
    decreases |a| - i
  {
    if i == |a| then 0 else Lack(a, h, i + 1) + if a[i] < h then h - a[i] else 0
  }

  lemma {:induction false} Balance(a: seq<nat>, h: nat, m: nat)
    requires m <= |a|
    ensures SumTo(a, m) + Lack(a, h, 0) == m * h + Over(a, h, m) + Lack(a, h, m)
  {
    if m > 0 {
      Balance(a, h, m - 1);
      assert m * h == (m - 1) * h + h;
    }
  }

  lemma {:induction false} OverOfOne(a: seq<nat>, h: nat, m: nat, b: nat)
    requires b < m <= |a|
    ensures a[b] <= h + Over(a, h, m)
  {
    if b < m - 1 {
      OverOfOne(a, h, m - 1, b);
    }
  }

  lemma {:induction false} LackBeyond(a: seq<nat>, h: nat, i: nat, j: nat)
    requires i <= j <= |a|
    ensures Lack(a, h, i) >= Lack(a, h, j)
    ensures j < |a| && a[j] < h ==> Lack(a, h, i) >= h - a[j]
    decreases j - i
  {
    if i < j {
      LackBeyond(a, h, i + 1, j);
    }
  }

  /** One more connection on j. */
  lemma {:induction false} OverRaised(a: seq<nat>, h: nat, m: nat, j: nat)
    requires m <= |a| && j < |a|
    ensures Over(a[j := a[j] + 1], h, m) == Over(a, h, m) + if j < m && a[j] >= h then 1 else 0
  {
    if m > 0 {
      OverRaised(a, h, m - 1, j);
    }
  }

  lemma {:induction false} LackRaised(a: seq<nat>, h: nat, i: nat, j: nat)
    requires i <= |a| && j < |a|
    ensures Lack(a[j := a[j] + 1], h, i) == Lack(a, h, i) - if i <= j && a[j] < h then 1 else 0
    decreases |a| - i
  {
    if i < |a| {
      LackRaised(a, h, i + 1, j);
    }
  }

  /** One connection fewer on j. */
  lemma {:induction false} Lowered(a: seq<nat>, h: nat, i: nat, j: nat)
    requires i <= |a| && j < |a| && a[j] > 0
    ensures Over(a[j := a[j] - 1], h, |a|) == Over(a, h, |a|) - if a[j] > h then 1 else 0
    ensures Lack(a[j := a[j] - 1], h, i) == Lack(a, h, i) + if i <= j && a[j] <= h then 1 else 0
  {
    var before := a[j := a[j] - 1];
    assert a == before[j := before[j] + 1];
    OverRaised(before, h, |a|, j);
    LackRaised(before, h, i, j);
  }

  /** A scan that is alone, or the older of two: no excess unless something it has not read falls short. */
  ghost predicate Aware(a: seq<nat>, h: nat, r: nat, c: Scan)
    requires c.next <= |a|
  {
    !IsLow(c, h) && Over(a, h, |a|) >= r - 1 ==> Lack(a, h, c.next) >= 1
  }

  /** A scan beside a choice of j: so it will be once j has one connection more. */
  ghost predicate AwareOf(a: seq<nat>, h: nat, c: Scan, j: nat)
    requires c.next <= |a| && j < |a|
  {
    !IsLow(c, h) && (a[j] >= h || Over(a, h, |a|) >= 1) ==>
      Lack(a, h, c.next) >= if c.next <= j && a[j] < h then 2 else 1
  }

  /** The younger of two scans, since whose start nothing was added. */
  ghost predicate Warned(a: seq<nat>, h: nat, c: Scan)
    requires c.next <= |a| && c.best < |a|
  {
    if IsLow(c, h) then a[c.best] < h && (Over(a, h, |a|) >= 1 ==> Lack(a, h, c.best) >= 2)
    else Lack(a, h, c.next) >= 1 && (Over(a, h, |a|) >= 1 ==> Lack(a, h, c.next) >= 2)
  }

  ghost predicate PairInv(n: nat, s: State, h: nat, r: nat)
    requires Shaped(n, s)
  {
    && (forall b | 0 <= b < n :: Claim(n, s, b, h) <= h - 1 + r)
    && (|s.scans| == 1 && SumTo(s.pending, n) == 0 ==> Aware(s.active, h, r, s.scans[0]))
    && (|s.scans| == 1 ==> forall j | 0 <= j < n && s.pending[j] > 0 :: AwareOf(s.active, h, s.scans[0], j))
    && (|s.scans| == 2 ==> Aware(s.active, h, r, s.scans[0]) && Warned(s.active, h, s.scans[1]))
  }

  /** Within the limits the shortfall covers the excess. */
  lemma {:induction false} LackCoversOver(n: nat, s: State, h: nat, K: nat, r: nat)
    requires Shaped(n, s) && Limits(n, s, K, r) && K <= n * h + r - 1
    ensures Lack(s.active, h, 0) + r - 1 >= Over(s.active, h, n) + Unguarded(n, s)
  {
    Balance(s.active, h, n);
  }

  // How the three predicates fare when the scan reads.

  lemma {:induction false} AwareRead(a: seq<nat>, h: nat, r: nat, c: Scan)
    requires ScanOk(|a|, c) && a[c.next] < USIZE_MAX && Aware(a, h, r, c)
    ensures Aware(a, h, r, Seen(c, a[c.next]))
  {
  }

  lemma {:induction false} AwareOfRead(a: seq<nat>, h: nat, c: Scan, j: nat)
    requires ScanOk(|a|, c) && a[c.next] < USIZE_MAX && j < |a| && AwareOf(a, h, c, j)
    ensures AwareOf(a, h, Seen(c, a[c.next]), j)
  {
  }

  lemma {:induction false} WarnedRead(a: seq<nat>, h: nat, c: Scan)
    requires ScanOk(|a|, c) && a[c.next] < USIZE_MAX && Warned(a, h, c)
    ensures Warned(a, h, Seen(c, a[c.next]))
  {
    LackBeyond(a, h, c.next, c.next);
  }

  /** The older scan chooses: the younger one knows what that can add. */
  lemma {:induction false} WarnedIsAware(a: seq<nat>, h: nat, c: Scan, j: nat)
    requires c.next <= |a| && c.best < |a| && j < |a| && Warned(a, h, c)
    ensures AwareOf(a, h, c, j)
  {
  }

  /** The younger scan chooses: it is low, and the older one knows what that can add. */
  lemma {:induction false} ChoiceIsKnown(a: seq<nat>, h: nat, c: Scan, d: Scan)
    requires c.next <= |a| && Aware(a, h, 2, c)
    requires d.next == |a| && d.best < |a| && Warned(a, h, d)
    ensures IsLow(d, h) && AwareOf(a, h, c, d.best)
  {
    if c.next <= d.best {
      LackBeyond(a, h, c.next, d.best);
    }
  }

  // How they fare when a counter moves.

  lemma {:induction false} AwareLowered(a: seq<nat>, h: nat, r: nat, c: Scan, b: nat)
    requires c.next <= |a| && b < |a| && a[b] > 0 && Aware(a, h, r, c)
    ensures Aware(a[b := a[b] - 1], h, r, c)
  {
    Lowered(a, h, c.next, b);
  }

  lemma {:induction false} AwareOfLowered(a: seq<nat>, h: nat, c: Scan, j: nat, b: nat)
    requires c.next <= |a| && j < |a| && b < |a| && a[b] > 0 && AwareOf(a, h, c, j)
    ensures AwareOf(a[b := a[b] - 1], h, c, j)
  {
    Lowered(a, h, c.next, b);
  }

  lemma {:induction false} WarnedLowered(a: seq<nat>, h: nat, c: Scan, b: nat)
    requires c.next <= |a| && c.best < |a| && b < |a| && a[b] > 0 && Warned(a, h, c)
    ensures Warned(a[b := a[b] - 1], h, c)
  {
    Lowered(a, h, c.next, b);
    Lowered(a, h, c.best, b);
  }

  lemma {:induction false} AwareOfGuard(a: seq<nat>, h: nat, c: Scan, j: nat)
    requires c.next <= |a| && j < |a| && AwareOf(a, h, c, j)
    ensures Aware(a[j := a[j] + 1], h, 2, c) && Aware(a, h, 2, c)
  {
    OverRaised(a, h, |a|, j);
    LackRaised(a, h, c.next, j);
  }

  lemma {:induction false} SomePending(p: seq<nat>, n: nat) returns (j: nat)
    requires n <= |p| && SumTo(p, n) > 0
    ensures j < n && p[j] > 0
  {
    if p[n - 1] > 0 {
      j := n - 1;
    } else {
      j := SomePending(p, n - 1);
    }
  }

  lemma {:induction false} PendingAtMostSum(n: nat, s: State)
    requires Shaped(n, s)
    ensures SumTo(s.pending, n) >= 0 && forall j | 0 <= j < n :: s.pending[j] <= SumTo(s.pending, n)
  {
    SumToAtLeast(s.pending, n, 0);
    forall j | 0 <= j < n ensures s.pending[j] <= SumTo(s.pending, n) {
      EntryAtMostSum(s.pending, n, j);
    }
  }

  lemma {:induction false} NumberOfFew(scans: seq<Scan>, p: Scan -> bool)
    requires |scans| <= 2
    ensures |scans| == 0 ==> Number(scans, p) == 0
    ensures |scans| == 1 ==> Number(scans, p) == if p(scans[0]) then 1 else 0
    ensures |scans| == 2 ==> Number(scans, p) == (if p(scans[0]) then 1 else 0) + if p(scans[1]) then 1 else 0
  {
    if |scans| == 1 {
      assert scans == [scans[0]];
      NumberOfOne(scans[0], p);
    } else if |scans| == 2 {
      assert scans == [scans[0]] + [scans[1]];
      NumberOfSum([scans[0]], [scans[1]], p);
      NumberOfOne(scans[0], p);
      NumberOfOne(scans[1], p);
    }
  }

  /** A scan that is not low chooses only while nothing exceeds the level. */
  lemma {:induction false} HighChoiceFits(n: nat, s: State, k: nat, b: nat, h: nat, r: nat)
    requires Shaped(n, s) && k < |s.scans| && PairInv(n, s, h, r) && Unguarded(n, s) <= r <= 2
    requires s.active[s.scans[k].next] < USIZE_MAX && ChoosesHigh(n, s, k, b, h)
    ensures Claim(n, s, b, h) <= h - 2 + r
  {
    var c := s.scans[k];
    PendingAtMostSum(n, s);
    NumberOfFew(s.scans, LowOn(b, h));
    OverOfOne(s.active, h, n, b);
    if |s.scans| == 2 {
      if k == 0 {
        AwareRead(s.active, h, r, c);
      } else {
        WarnedRead(s.active, h, c);
      }
    } else if SumTo(s.pending, n) == 0 {
      AwareRead(s.active, h, r, c);
    } else {
      var j := SomePending(s.pending, n);
      AwareOfRead(s.active, h, c, j);
      if s.pending[b] > 0 {
        AwareOfRead(s.active, h, c, b);
      }
    }
  }

  lemma {:induction false} PairReadClaims(n: nat, s: State, k: nat, b: nat, h: nat, r: nat)
    requires Shaped(n, s) && k < |s.scans| && b < n && PairInv(n, s, h, r) && Unguarded(n, s) <= r <= 2
    requires s.active[s.scans[k].next] < USIZE_MAX
    ensures Claim(n, ReadStep(n, s, k), b, h) <= h - 1 + r
  {
    ReadKeepsClaim(n, s, k, b, h, r);
    hide Claim, ReadStep;
    if ChoosesHigh(n, s, k, b, h) {
      HighChoiceFits(n, s, k, b, h, r);
    }
  }

  lemma {:induction false} PairRead(n: nat, s: State, k: nat, h: nat, r: nat)
    requires Shaped(n, s) && k < |s.scans| && PairInv(n, s, h, r) && Unguarded(n, s) <= r <= 2
    requires s.active[s.scans[k].next] < USIZE_MAX
    ensures PairInv(n, ReadStep(n, s, k), h, r)
  {
    var s' := ReadStep(n, s, k);
    forall b | 0 <= b < n ensures Claim(n, s', b, h) <= h - 1 + r {
      PairReadClaims(n, s, k, b, h, r);
    }
    var c := s.scans[k];
    var c' := Seen(c, s.active[c.next]);
    assert ScanOk(n, c);
    PendingAtMostSum(n, s);
    hide Aware, AwareOf, Warned, Claim, IsLow;
    if c'.next < n {
      PairReadOn(n, s, k, h, r);
    } else if |s.scans| == 2 {
      SumToUpdate(s.pending, n, c'.best, s.pending[c'.best] + 1);
      if k == 0 {
        assert s'.scans == [s.scans[1]];
        WarnedIsAware(s.active, h, s.scans[1], c'.best);
      } else {
        assert s'.scans == [s.scans[0]];
        WarnedRead(s.active, h, c);
        ChoiceIsKnown(s.active, h, s.scans[0], c');
      }
    }
  }

  /** The scan goes on after this read. */
  lemma {:induction false} PairReadOn(n: nat, s: State, k: nat, h: nat, r: nat)
    requires Shaped(n, s) && k < |s.scans| <= 2 && PairInv(n, s, h, r)
    requires s.active[s.scans[k].next] < USIZE_MAX && s.scans[k].next + 1 < n
    ensures var scans := ReadStep(n, s, k).scans;
            && (|scans| == 1 && SumTo(s.pending, n) == 0 ==> Aware(s.active, h, r, scans[0]))
            && (|scans| == 1 ==> forall j | 0 <= j < n && s.pending[j] > 0 :: AwareOf(s.active, h, scans[0], j))
            && (|scans| == 2 ==> Aware(s.active, h, r, scans[0]) && Warned(s.active, h, scans[1]))
  {
    var c := s.scans[k];
    assert ScanOk(n, c);
    hide Aware, AwareOf, Warned, Claim;
    if |s.scans| == 1 {
      if SumTo(s.pending, n) == 0 {
        AwareRead(s.active, h, r, c);
      }
      forall j | 0 <= j < n && s.pending[j] > 0 ensures AwareOf(s.active, h, Seen(c, s.active[c.next]), j) {
        AwareOfRead(s.active, h, c, j);
      }
    } else if k == 0 {
      AwareRead(s.active, h, r, c);
    } else {
      WarnedRead(s.active, h, c);
    }
  }

  lemma {:induction false} PairBegin(n: nat, s: State, h: nat, K: nat, r: nat)
    requires Shaped(n, s) && PairInv(n, s, h, r) && r <= 2 && K <= n * h + r - 1
    requires Limits(n, Apply(n, s, Begin), K, r)
    ensures PairInv(n, Apply(n, s, Begin), h, r)
  {
    var s' := Apply(n, s, Begin);
    forall b | 0 <= b < n ensures Claim(n, s', b, h) <= h - 1 + r {
      OthersKeepClaim(n, s, Begin, b, h);
    }
    PendingAtMostSum(n, s);
    LackCoversOver(n, s', h, K, r);
    hide Claim, Over, Lack;
  }

  lemma {:induction false} PairLeave(n: nat, s: State, e: Event, h: nat, r: nat)
    requires Shaped(n, s) && PairInv(n, s, h, r) && Unguarded(n, s) <= r <= 2
    requires (e.TakeGuard? || e.TurnAway?) && e.b < n && s.pending[e.b] > 0
    ensures PairInv(n, Apply(n, s, e), h, r)
  {
    var s' := Apply(n, s, e);
    forall b | 0 <= b < n ensures Claim(n, s', b, h) <= h - 1 + r {
      OthersKeepClaim(n, s, e, b, h);
    }
    PendingAtMostSum(n, s);
    SumToUpdate(s.pending, n, e.b, s.pending[e.b] - 1);
    PendingAtMostSum(n, s');
    hide Claim, Over, Lack, Aware, AwareOf;
    if |s.scans| == 1 {
      AwareOfGuard(s.active, h, s.scans[0], e.b);
    }
  }

  lemma {:induction false} PairDrop(n: nat, s: State, b: nat, h: nat, r: nat)
    requires Shaped(n, s) && PairInv(n, s, h, r) && b < n && s.active[b] > 0
    ensures PairInv(n, Apply(n, s, DropGuard(b)), h, r)
  {
    var s' := Apply(n, s, DropGuard(b));
    forall i | 0 <= i < n ensures Claim(n, s', i, h) <= h - 1 + r {
      OthersKeepClaim(n, s, DropGuard(b), i, h);
    }
    hide Claim, Over, Lack, Aware, AwareOf, Warned;
    if |s.scans| == 1 {
      if SumTo(s.pending, n) == 0 {
        AwareLowered(s.active, h, r, s.scans[0], b);
      }
      forall j | 0 <= j < n && s.pending[j] > 0 ensures AwareOf(s'.active, h, s.scans[0], j) {
        AwareOfLowered(s.active, h, s.scans[0], j, b);
      }
    } else if |s.scans| == 2 {
      AwareLowered(s.active, h, r, s.scans[0], b);
      assert ScanOk(n, s.scans[1]);
      WarnedLowered(s.active, h, s.scans[1], b);
    }
  }

  lemma {:induction false} PairStep(n: nat, s: State, e: Event, h: nat, K: nat, r: nat)
    requires Shaped(n, s) && PairInv(n, s, h, r) && Limits(n, s, K, r) && Limits(n, Apply(n, s, e), K, r)
    requires r <= 2 && K <= n * h + r - 1 && K <= USIZE_MAX
    ensures PairInv(n, Apply(n, s, e), h, r)
  {
    hide PairInv, ReadStep;
    match e {
      case Begin => PairBegin(n, s, h, K, r);
      case Read(k) =>
        if k < |s.scans| {
          BelowSentinel(n, s, s.scans[k].next, K, r);
          PairRead(n, s, k, h, r);
        }
      case TakeGuard(b) => if b < n && s.pending[b] > 0 { PairLeave(n, s, e, h, r); }
      case TurnAway(b) => if b < n && s.pending[b] > 0 { PairLeave(n, s, e, h, r); }
      case DropGuard(b) => if b < n && s.active[b] > 0 { PairDrop(n, s, b, h, r); }
    }
  }

  // ---------- The ceiling ----------

  lemma {:induction false} StartHolds(n: nat, h: nat, r: nat)
    requires n > 0 && h > 0
    ensures PairInv(n, Start(n), h, r) && RaceInv(n, Start(n), h, r)
  {
  }

  lemma {:induction false} PairRun(n: nat, events: seq<Event>, K: nat, r: nat)
    requires n > 0 && 1 <= r <= K <= USIZE_MAX && r <= 2 && Within(n, events, K, r)
    ensures PairInv(n, Run(n, events), Level(n, K, r), r)
  {
    hide PairInv, Limits, Apply, Level;
    LevelRoom(n, K, r);
    if |events| == 0 {
      StartHolds(n, Level(n, K, r), r);
    } else {
      var before, e := events[..|events| - 1], events[|events| - 1];
      PairRun(n, before, K, r);
      PairStep(n, Run(n, before), e, Level(n, K, r), K, r);
    }
  }

  lemma {:induction false} RaceRun(n: nat, events: seq<Event>, K: nat, r: nat)
    requires n >= 2 && 1 <= r <= K <= USIZE_MAX && Within(n, events, K, r)
    ensures RaceInv(n, Run(n, events), Level(2, K, r), r)
  {
    hide RaceInv, Limits, Apply, Level;
    LevelRoom(2, K, r);
    if |events| == 0 {
      StartHolds(n, Level(2, K, r), r);
    } else {
      var before, e := events[..|events| - 1], events[|events| - 1];
      RaceRun(n, before, K, r);
      RaceStep(n, Run(n, before), e, Level(2, K, r), K, r);
    }
  }

  /** Whatever races the scans, no backend of two or more is ever given more than one of two could be. */
  lemma {:induction false} RacingLoad(n: nat, events: seq<Event>, K: nat, r: nat, b: nat)
    requires b < n && 1 <= r <= K <= USIZE_MAX && Within(n, events, K, r)
    ensures Run(n, events).active[b] + Run(n, events).pending[b] <= LC.Ceiling(if n == 1 then 1 else 2, K, r)
  {
    hide Run, RaceInv, Number, LC.Ceiling;
    var s := Run(n, events);
    if n == 1 {
      OneBackend(n, s, K, r);
    } else {
      LevelRoom(2, K, r);
      RaceRun(n, events, K, r);
      RaceClaim(n, s, Level(2, K, r), r, b);
    }
  }

  lemma {:induction false} OneBackend(n: nat, s: State, K: nat, r: nat)
    requires n == 1 && r <= K && Shaped(n, s) && Limits(n, s, K, r)
    ensures s.active[0] + s.pending[0] <= LC.Ceiling(1, K, r)
  {
    assert SumTo(s.active, 1) == s.active[0] && SumTo(s.pending, 1) == s.pending[0];
  }

  lemma {:induction false} RaceClaim(n: nat, s: State, h: nat, r: nat, b: nat)
    requires Shaped(n, s) && RaceInv(n, s, h, r) && b < n
    ensures s.active[b] + s.pending[b] <= h - 1 + r
  {
    assert Claim(n, s, b, h) + Number(s.scans, HighBefore(b, h)) <= h - 1 + r;
  }

  /** With at most two backends, or at most two requests without a guard, the ceiling holds whatever races a scan. */
  lemma {:induction false} ScanCeiling(n: nat, events: seq<Event>, K: nat, r: nat, b: nat)
    requires b < n && 1 <= r <= K <= USIZE_MAX && Within(n, events, K, r)
    requires n <= 2 || r <= 2
    ensures Run(n, events).active[b] + Run(n, events).pending[b] <= LC.Ceiling(n, K, r)
  {
    hide Run, PairInv, Within, LC.Ceiling;
    if n <= 2 {
      RacingLoad(n, events, K, r, b);
    } else {
      PairRun(n, events, K, r);
      LevelRoom(n, K, r);
      PairClaim(n, Run(n, events), Level(n, K, r), r, b);
    }
  }

  lemma {:induction false} PairClaim(n: nat, s: State, h: nat, r: nat, b: nat)
    requires Shaped(n, s) && PairInv(n, s, h, r) && b < n
    ensures s.active[b] + s.pending[b] <= h - 1 + r
  {
    assert Claim(n, s, b, h) <= h - 1 + r;
  }
}
