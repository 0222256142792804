/** One request through the proxy, with the guard that counts it on its backend. */
module RequestHandlers {
  import opened Backends
  import opened BackendPools
  import opened Headers
  import opened RequestLifecycle
  import opened Words

  /** Counts one connection from its creation until it is dropped. */
  class ConnectionGuard {
    const backend: Backend

    constructor (backend: Backend)
      modifies backend`activeConnections
      ensures this.backend == backend
      ensures backend.activeConnections == (old(backend.activeConnections) + 1) % TWO_64
    {
      this.backend := backend;
      new;
      backend.IncrementConnections();
    }

    method Drop()
      modifies backend`activeConnections
      ensures backend.activeConnections == (old(backend.activeConnections) + TWO_64 - 1) % TWO_64
    {
      backend.DecrementConnections();
    }
  }

  /** What comes of the forwarded request: a response with its headers, an error, a timeout, or the client is gone. */
  datatype Reply = Responded(headers: HeaderMap) | Failed | TimedOut | Abandoned

  /** Awaiting the reply under a guard: one connection more meanwhile, and as many as before whatever comes of it. */
  method AwaitReply(backend: Backend, reply: Reply) returns (outcome: Outcome, ghost meanwhile: nat)
    requires backend.activeConnections < TWO_64
    requires reply.Responded? ==> reply.headers.Valid()
    modifies backend`activeConnections, if reply.Responded? then {reply.headers} else {}
    ensures outcome == RequestLifecycle.Outcome.Forwarded <==> reply.Responded?
    ensures outcome == BadGateway <==> reply.Failed?
    ensures outcome == GatewayTimeout <==> reply.TimedOut?
    ensures outcome == Cancelled <==> reply.Abandoned?
    ensures meanwhile == (old(backend.activeConnections) + 1) % TWO_64
    ensures backend.activeConnections == old(backend.activeConnections)
    ensures reply.Responded? ==>
      forall name :: Values(reply.headers.entries, name)
        == if IsHopByHop(name) then [] else Values(old(reply.headers.entries), name)
  {
    hide Without, IsHopByHop;
    UpAndDown(backend.activeConnections);
    var guard := new ConnectionGuard(backend);
    meanwhile := backend.activeConnections;
    if reply.Responded? {
      StripHopByHopHeaders(reply.headers);
    }
    match reply {
      case Responded(_) => outcome := RequestLifecycle.Outcome.Forwarded;
      case Failed => outcome := BadGateway;
      case TimedOut => outcome := GatewayTimeout;
      case Abandoned => outcome := Cancelled;
    }
    guard.Drop();
  }

  lemma {:induction false} UpAndDown(x: nat)
    requires x < TWO_64
    ensures ((x + 1) % TWO_64 + TWO_64 - 1) % TWO_64 == x
  {
  }

  /**
   The selection is the strategy's, the reply the backend's. The request is refused, or rewritten and forwarded; every
   connection counter is afterwards what it was before.
   */
  method HandleRequest(pool: BackendPool, selected: Option<nat>, uriOk: bool, headers: HeaderMap, client: string,
                       show: SocketAddr -> string, reply: Reply) returns (outcome: Outcome)
    requires headers.Valid() && forall b | b in pool.HealthyBackends() :: b.activeConnections < TWO_64
    requires selected.None? <==> |pool.HealthyBackends()| == 0
    requires selected.Some? ==> selected.value < |pool.HealthyBackends()|
    requires reply.Responded? ==> reply.headers.Valid() && reply.headers != headers
    modifies headers, if reply.Responded? then {reply.headers} else {}, pool.healthyCache`activeConnections
    ensures pool.healthyCache == old(pool.healthyCache)
    ensures forall b | b in pool.healthyCache :: b.activeConnections == old(b.activeConnections)
    ensures outcome == ServiceUnavailable <==> selected.None?
    ensures outcome == BadRequest <==> selected.Some? && !uriOk
    ensures outcome == RequestLifecycle.Outcome.Forwarded <==> selected.Some? && uriOk && reply.Responded?
    ensures outcome == BadGateway <==> selected.Some? && uriOk && reply.Failed?
    ensures outcome == GatewayTimeout <==> selected.Some? && uriOk && reply.TimedOut?
    ensures outcome == Cancelled <==> selected.Some? && uriOk && reply.Abandoned?
    ensures selected.Some? && uriOk ==>
      forall name :: Values(headers.entries, name)
        == Rewritten(old(headers.entries), client, show(pool.healthyCache[selected.value].addr), name)
    ensures selected.None? || !uriOk ==> headers.entries == old(headers.entries)
    ensures reply.Responded? ==>
      forall name :: Values(reply.headers.entries, name)
        == if selected.Some? && uriOk && IsHopByHop(name) then [] else Values(old(reply.headers.entries), name)
  {
    hide Rewritten, IsHopByHop;
    if selected.None? {
      return ServiceUnavailable;
    }
    var backend := pool.HealthyBackends()[selected.value];
    if !uriOk {
      return BadRequest;
    }
    RewriteRequest(headers, client, show(backend.addr));
    ghost var meanwhile;
    outcome, meanwhile := AwaitReply(backend, reply);
  }
}
