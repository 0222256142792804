/** Backends with their shared flags and counters, and the values they are configured from. */
module Backends {
  import opened Words

  type Octet = x: nat | x < 256

  datatype IpAddr = V4(octets: seq<Octet>) | V6(octets: seq<Octet>)
  datatype SocketAddr = SocketAddr(ip: IpAddr, port: nat)

  datatype Option<+T> = None | Some(value: T)

  /** A configured backend. Parsing the address text is the library's: None is text that does not parse. */
  datatype BackendConfig = BackendConfig(addr: Option<SocketAddr>, weight: nat)

  datatype PoolError = NoBackends | AddrParseError

  class Backend {
    const addr: SocketAddr
    const weight: nat
    var healthy: bool
    var activeConnections: nat

    constructor (addr: SocketAddr, weight: nat)
      ensures this.addr == addr && this.weight == weight && healthy && activeConnections == 0
    {
      this.addr, this.weight := addr, weight;
      healthy, activeConnections := true, 0;
    }

    /** fetch_add on a 64-bit counter. */
    method IncrementConnections()
      modifies this`activeConnections
      ensures activeConnections == (old(activeConnections) + 1) % TWO_64
    {
      activeConnections := (activeConnections + 1) % TWO_64;
    }

    /** fetch_sub on a 64-bit counter: zero would wrap to the largest value. */
    method DecrementConnections()
      modifies this`activeConnections
      ensures activeConnections == (old(activeConnections) + TWO_64 - 1) % TWO_64
    {
      activeConnections := (activeConnections + TWO_64 - 1) % TWO_64;
    }
  }

  function Weights(backends: seq<Backend>): (w: seq<nat>)
    ensures |w| == |backends|
    ensures forall i | 0 <= i < |w| :: w[i] == backends[i].weight
  {
    seq(|backends|, i requires 0 <= i < |backends| => backends[i].weight)
  }

  function Addresses(backends: seq<Backend>): (a: seq<SocketAddr>)
    ensures |a| == |backends|
    ensures forall i | 0 <= i < |a| :: a[i] == backends[i].addr
  {
    seq(|backends|, i requires 0 <= i < |backends| => backends[i].addr)
  }

  function Flags(backends: seq<Backend>): (f: seq<bool>)
    reads backends
    ensures |f| == |backends|
    ensures forall i | 0 <= i < |f| :: f[i] == backends[i].healthy
  {
    seq(|backends|, i requires 0 <= i < |backends| reads backends => backends[i].healthy)
  }

  function Connections(backends: seq<Backend>): (c: seq<nat>)
    reads backends
    ensures |c| == |backends|
    ensures forall i | 0 <= i < |c| :: c[i] == backends[i].activeConnections
  {
    seq(|backends|, i requires 0 <= i < |backends| reads backends => backends[i].activeConnections)
  }
}
