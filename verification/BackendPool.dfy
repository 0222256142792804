/** The pool: fixed backends, their health flags, and a cached list of the healthy ones. */
module BackendPools {
  import opened Backends

  datatype Result<+T, +E> = Success(value: T) | Failure(error: E)

  // ---------- Filtering by flag ----------

  /** The positions whose flag is up, in order. */
  function HealthyPositions(flags: seq<bool>): (p: seq<nat>)
    ensures forall j | 0 <= j < |p| :: p[j] < |flags|
  {
    if |flags| == 0 then [] else
    HealthyPositions(flags[..|flags| - 1]) + if flags[|flags| - 1] then [|flags| - 1] else []
  }

  /** Exactly the raised flags, each once, in increasing order. */
  lemma {:induction false} HealthyPositionsExact(flags: seq<bool>)
    ensures forall i: nat :: i in HealthyPositions(flags) <==> i < |flags| && flags[i]
    ensures forall j, k | 0 <= j < k < |HealthyPositions(flags)| ::
        HealthyPositions(flags)[j] < HealthyPositions(flags)[k]
  {
    if |flags| > 0 {
      HealthyPositionsExact(flags[..|flags| - 1]);
    }
  }

  function Elements<T>(items: seq<T>, positions: seq<nat>): (s: seq<T>)
    requires forall j | 0 <= j < |positions| :: positions[j] < |items|
    ensures |s| == |positions|
  {
    seq(|positions|, j requires 0 <= j < |positions| => items[positions[j]])
  }

  /** The backends whose flag is up, in configuration order. */
  function HealthyOnly(backends: seq<Backend>): (h: seq<Backend>)
    reads backends
  {
    Elements(backends, HealthyPositions(Flags(backends)))
  }

  /** They come in the order of the pool. */
  lemma {:induction false} HealthyOnlyInOrder(backends: seq<Backend>)
    ensures var h, p := HealthyOnly(backends), HealthyPositions(Flags(backends));
            && |h| == |p| && (forall j | 0 <= j < |h| :: h[j] == backends[p[j]])
            && forall j, k | 0 <= j < k < |p| :: p[j] < p[k]
  {
    HealthyPositionsExact(Flags(backends));
  }

  lemma {:induction false} HealthyOnlyMembers(backends: seq<Backend>, b: Backend)
    ensures b in HealthyOnly(backends) <==> b in backends && b.healthy
  {
    var flags := Flags(backends);
    var p := HealthyPositions(flags);
    HealthyPositionsExact(flags);
    if b in HealthyOnly(backends) {
      var j :| 0 <= j < |p| && HealthyOnly(backends)[j] == b;
      assert p[j] in p;
    }
    if b in backends && b.healthy {
      var i :| 0 <= i < |backends| && backends[i] == b;
      assert i in p;
      var j :| 0 <= j < |p| && p[j] == i;
      assert HealthyOnly(backends)[j] == b;
    }
  }

  // ---------- Looking a backend up ----------

  /** The first position that holds the address. */
  function FindAddr(addrs: seq<SocketAddr>, a: SocketAddr): (r: Option<nat>)
    ensures r.Some? ==> r.value < |addrs| && addrs[r.value] == a && a !in addrs[..r.value]
    ensures r.None? ==> a !in addrs
  {
    if |addrs| == 0 then None
    else if addrs[0] == a then Some(0)
    else
      var r := FindAddr(addrs[1..], a);
      if r.Some? then
        assert addrs[..r.value + 1] == [addrs[0]] + addrs[1..][..r.value];
        Some(r.value + 1)
      else
        assert addrs == [addrs[0]] + addrs[1..];
        None
  }

  ghost predicate Distinct<T>(s: seq<T>) {
    forall i, j | 0 <= i < j < |s| :: s[i] != s[j]
  }

  class BackendPool {
    const backends: seq<Backend>
    var healthyCache: seq<Backend>

    /** Every configured backend is an object of its own. */
    ghost predicate Valid() {
      Distinct(backends)
    }

    /** The cached list is the in-order filter of the flags. */
    ghost predicate Coherent()
      reads this, backends
    {
      healthyCache == HealthyOnly(backends)
    }

    /** Keeps whatever flags the backends already carry. */
    constructor (backends: seq<Backend>)
      requires Distinct(backends)
      ensures this.backends == backends && Valid() && Coherent()
    {
      this.backends := backends;
      healthyCache := HealthyOnly(backends);
    }

    /** No backends, or an address that does not parse, is an error; otherwise every backend starts healthy. */
    static method FromConfig(configs: seq<BackendConfig>) returns (r: Result<BackendPool, PoolError>)
      ensures r == Failure(NoBackends) <==> |configs| == 0
      ensures r == Failure(AddrParseError) <==> exists i | 0 <= i < |configs| :: configs[i].addr.None?
      ensures r.Success? ==>
        var pool := r.value;
        && fresh(pool) && fresh(set b | b in pool.backends) && pool.Valid() && pool.Coherent()
        && |pool.backends| == |configs|
        && (forall i | 0 <= i < |configs| ::
              pool.backends[i].weight == configs[i].weight && Some(pool.backends[i].addr) == configs[i].addr
              && pool.backends[i].healthy && pool.backends[i].activeConnections == 0)
    {
      if |configs| == 0 {
        return Failure(NoBackends);
      }
      var backends: seq<Backend> := [];
      for i := 0 to |configs|
        invariant |backends| == i && Distinct(backends) && fresh(set b | b in backends)
        invariant forall k | 0 <= k < i ::
            backends[k].weight == configs[k].weight && Some(backends[k].addr) == configs[k].addr
            && backends[k].healthy && backends[k].activeConnections == 0
      {
        if configs[i].addr.None? {
          return Failure(AddrParseError);
        }
        var b := new Backend(configs[i].addr.value, configs[i].weight);
        backends := backends + [b];
      }
      var pool := new BackendPool(backends);
      return Success(pool);
    }

    function GetHealthByAddr(a: SocketAddr): (h: Option<bool>)
      reads backends
      ensures var i := FindAddr(Addresses(backends), a);
              h == if i.Some? then Some(Flags(backends)[i.value]) else None
    {
      var i := FindAddr(Addresses(backends), a);
      if i.Some? then Some(backends[i.value].healthy) else None
    }

    /** A reader's immutable snapshot. */
    function HealthyBackends(): (h: seq<Backend>)
      reads this
    {
      healthyCache
    }

    method RebuildHealthyCache()
      modifies this
      ensures Coherent()
    {
      healthyCache := HealthyOnly(backends);
    }

    method Mark(index: nat, healthy: bool) returns (r: Option<()>)
      requires Valid()
      modifies this, backends`healthy
      ensures index < |backends| ==>
        r == Some(()) && Flags(backends) == old(Flags(backends))[index := healthy] && Coherent()
      ensures index >= |backends| ==> r == None && unchanged(this) && Flags(backends) == old(Flags(backends))
    {
      if index >= |backends| {
        return None;
      }
      backends[index].healthy := healthy;
      RebuildHealthyCache();
      return Some(());
    }

    /** The first backend with the address is marked; an unknown address changes nothing. */
    method MarkByAddr(a: SocketAddr, healthy: bool) returns (r: Option<()>)
      requires Valid()
      modifies this, backends`healthy
      ensures var i := FindAddr(Addresses(backends), a);
        if i.Some? then
          r == Some(()) && Flags(backends) == old(Flags(backends))[i.value := healthy] && Coherent()
        else
          r == None && unchanged(this) && Flags(backends) == old(Flags(backends))
    {
      var i := FindAddr(Addresses(backends), a);
      if i.None? {
        return None;
      }
      r := Mark(i.value, healthy);
    }
  }
}
