/** The IP hash: a reduced Horner loop over the octets, and what it can and cannot tell apart. */
module IpHash {
  import opened Arithmetic
  import opened Backends

  const SEED := 89
  const FACTOR := 113
  const MODULUS := 6271

  /** 113 * 111 == 2 * 6271 + 1. */
  const INVERSE := 111

  function Step(h: nat, b: Octet): (h': nat)
    ensures h' < MODULUS
  {
    (h * FACTOR + b) % MODULUS
  }

  /** The hash of the octets, reduced after every octet. */
  function Hash(octets: seq<Octet>): (h: nat)
    ensures h < MODULUS
  {
    if |octets| == 0 then SEED else Step(Hash(octets[..|octets| - 1]), octets[|octets| - 1])
  }

  /** The unreduced polynomial: 89 * 113^k + sum of octet_i * 113^(k-1-i). */
  function Polynomial(octets: seq<Octet>): (p: nat) {
    if |octets| == 0 then SEED else Polynomial(octets[..|octets| - 1]) * FACTOR + octets[|octets| - 1]
  }

  // ---------- The closed form ----------

  function Power(base: nat, k: nat): nat {
    if k == 0 then 1 else base * Power(base, k - 1)
  }

  /** The sum over the first m octets of octet_i * 113^(k-1-i), k being the number of all octets. */
  function Places(octets: seq<Octet>, m: nat): nat
    requires m <= |octets|
  {
    if m == 0 then 0 else Places(octets, m - 1) + octets[m - 1] * Power(113, |octets| - m)
  }

  /** Each octet moves up one place when another one follows. */
  lemma {:induction false} PlacesMoveUp(octets: seq<Octet>, b: Octet, m: nat)
    requires m <= |octets|
    ensures Places(octets + [b], m) == 113 * Places(octets, m)
  {
    if m > 0 {
      PlacesMoveUp(octets, b, m - 1);
      MoveFactor(octets[m - 1], Power(113, |octets| - m));
    }
  }

  lemma {:induction false} MoveFactor(x: int, y: int)
    ensures x * (113 * y) == 113 * (x * y)
  {
  }

  lemma {:induction false} PolynomialIsClosedForm(octets: seq<Octet>)
    ensures Polynomial(octets) == 89 * Power(113, |octets|) + Places(octets, |octets|)
  {
    if |octets| > 0 {
      var before, b := octets[..|octets| - 1], octets[|octets| - 1];
      PolynomialIsClosedForm(before);
      PlacesMoveUp(before, b, |before|);
      assert before + [b] == octets;
      MoveFactor(89, Power(113, |before|));
      assert Power(113, 0) == 1;
    }
  }

  /** The hash of k octets is 89 * 113^k plus the sum of octet_i * 113^(k-1-i), modulo 6271. */
  lemma {:induction false} HashIsClosedForm(octets: seq<Octet>)
    ensures Hash(octets) == (89 * Power(113, |octets|) + Places(octets, |octets|)) % 6271
  {
    HashIsPolynomial(octets);
    PolynomialIsClosedForm(octets);
  }

  lemma {:induction false} PolynomialOfOneMore(octets: seq<Octet>, b: Octet)
    ensures Polynomial(octets + [b]) == Polynomial(octets) * 113 + b
  {
    assert (octets + [b])[..|octets|] == octets;
  }

  /** For the four octets of an IPv4 address: 12769, 1442897 and 163047361 are the second to fourth power of 113. */
  lemma {:induction false} HashOfFour(a: Octet, b: Octet, c: Octet, d: Octet)
    ensures Hash([a, b, c, d]) == (89 * 163047361 + 1442897 * a + 12769 * b + 113 * c + d) % 6271
  {
    assert Polynomial([]) == 89;
    hide Hash, Polynomial;
    PolynomialOfOneMore([], a);
    PolynomialOfOneMore([a], b);
    PolynomialOfOneMore([a, b], c);
    PolynomialOfOneMore([a, b, c], d);
    assert [] + [a] == [a] && [a] + [b] == [a, b] && [a, b] + [c] == [a, b, c] && [a, b, c] + [d] == [a, b, c, d];
    HashIsPolynomial([a, b, c, d]);
  }

  /** The value of step i of the loop before it is reduced. */
  function Unreduced(octets: seq<Octet>, i: nat): (v: nat)
    requires i < |octets|
  {
    Hash(octets[..i]) * FACTOR + octets[i]
  }

  /** The program's loop, over either address family; no intermediate value reaches 708766. */
  method HashIp(addr: SocketAddr) returns (hash: nat)
    ensures hash == Hash(addr.ip.octets)
    ensures var octets := addr.ip.octets; hash == (89 * Power(113, |octets|) + Places(octets, |octets|)) % 6271
    ensures forall i | 0 <= i < |addr.ip.octets| :: Unreduced(addr.ip.octets, i) < 708766
  {
    hash := SEED;
    var octets := addr.ip.octets;
    for i := 0 to |octets|
      invariant hash == Hash(octets[..i]) && hash < MODULUS
      invariant forall j | 0 <= j < i :: Unreduced(octets, j) < 708766
    {
      assert octets[..i + 1][..i] == octets[..i];
      hash := (hash * FACTOR + octets[i]) % MODULUS;
    }
    assert octets[..|octets|] == octets;
    HashIsClosedForm(octets);
  }

  /** The position for a client on a slice of n backends: the first one when the client is unknown. */
  method Select(backends: seq<Backend>, client: Option<SocketAddr>) returns (r: Option<nat>)
    ensures r == None <==> |backends| == 0
    ensures r.Some? ==> r.value < |backends|
    ensures r.Some? && client == None ==> r.value == 0
    ensures r.Some? && client.Some? ==>
      var octets := client.value.ip.octets;
      r.value == (89 * Power(113, |octets|) + Places(octets, |octets|)) % 6271 % |backends|
  {
    if |backends| == 0 {
      return None;
    }
    if client.None? {
      return Some(0);
    }
    var h := HashIp(client.value);
    return Some(h % |backends|);
  }

  lemma {:induction false} StepReduces(p: nat, b: Octet)
    ensures Step(p % MODULUS, b) == (p * FACTOR + b) % MODULUS
  {
    var q, h := p / MODULUS, p % MODULUS;
    var z := h * FACTOR + b;
    assert p == MODULUS * q + h;
    DivisionIs(p * FACTOR + b, MODULUS, q * FACTOR + z / MODULUS, z % MODULUS);
  }

  /** Reducing after every octet loses nothing: the hash is the polynomial modulo 6271. */
  lemma {:induction false} HashIsPolynomial(octets: seq<Octet>)
    ensures Hash(octets) == Polynomial(octets) % MODULUS
  {
    if |octets| > 0 {
      HashIsPolynomial(octets[..|octets| - 1]);
      StepReduces(Polynomial(octets[..|octets| - 1]), octets[|octets| - 1]);
    }
  }

  /** A step is injective in the running hash, because 113 has an inverse modulo 6271. */
  lemma {:induction false} StepInjectiveInHash(g: nat, h: nat, b: Octet)
    requires g < MODULUS && h < MODULUS
    ensures Step(g, b) == Step(h, b) <==> g == h
  {
    StepUndone(g, b);
    StepUndone(h, b);
  }

  /** Undo(Step(h, b), b) == h: a step is invertible. */
  function Undo(h: nat, b: Octet): (g: nat)
    ensures g < MODULUS
  {
    ((h + MODULUS - b) * INVERSE) % MODULUS
  }

  lemma {:induction false} StepUndone(h: nat, b: Octet)
    requires h < MODULUS
    ensures Undo(Step(h, b), b) == h
  {
    var z := h * FACTOR + b;
    var q := z / MODULUS;
    assert Step(h, b) == z - MODULUS * q;
    DivisionIs((Step(h, b) + MODULUS - b) * INVERSE, MODULUS, 2 * h - INVERSE * q + INVERSE, h);
  }

  /** A step is injective in its octet. */
  lemma {:induction false} StepInjectiveInOctet(h: nat, a: Octet, b: Octet)
    ensures Step(h, a) == Step(h, b) <==> a == b
  {
    var x, y := h * FACTOR + a, h * FACTOR + b;
    assert x - y == MODULUS * (x / MODULUS - y / MODULUS) + (x % MODULUS - y % MODULUS);
  }

  /** A common tail of octets neither separates nor merges two hashes. */
  lemma {:induction false} TailKeepsDifference(a: seq<Octet>, b: seq<Octet>, tail: seq<Octet>)
    ensures Hash(a + tail) == Hash(b + tail) <==> Hash(a) == Hash(b)
  {
    if |tail| == 0 {
      assert a + tail == a && b + tail == b;
    } else {
      var rest, last := tail[..|tail| - 1], tail[|tail| - 1];
      TailKeepsDifference(a, b, rest);
      assert (a + tail)[..|a + tail| - 1] == a + rest && (b + tail)[..|b + tail| - 1] == b + rest;
      StepInjectiveInHash(Hash(a + rest), Hash(b + rest), last);
    }
  }

  /** Addresses that differ in exactly one octet always hash differently. */
  lemma {:induction false} OneOctetSeparates(octets: seq<Octet>, i: nat, v: Octet)
    requires i < |octets| && octets[i] != v
    ensures Hash(octets) != Hash(octets[i := v])
  {
    var head, tail := octets[..i], octets[i + 1..];
    var a, b := head + [octets[i]], head + [v];
    assert octets == a + tail && octets[i := v] == b + tail;
    assert a[..i] == head && b[..i] == head;
    StepInjectiveInOctet(Hash(head), octets[i], v);
    TailKeepsDifference(a, b, tail);
  }

  /**
   Two neighbouring octets do not suffice: changing them by dx and dy is invisible exactly when 6271
   divides 113 * dx + dy, as it does for (111, -1) and (55, 56).
   */
  lemma {:induction false} NeighboursCollideIff(head: seq<Octet>, x: Octet, y: Octet, x': Octet, y': Octet,
                                                tail: seq<Octet>)
    ensures Hash(head + [x, y] + tail) == Hash(head + [x', y'] + tail)
       <==> (FACTOR * (x' - x) + (y' - y)) % MODULUS == 0
  {
    HashOfTwo(head, x, y);
    HashOfTwo(head, x', y');
    SameRemainder((Hash(head) * FACTOR + x) * FACTOR + y, (Hash(head) * FACTOR + x') * FACTOR + y');
    TailKeepsDifference(head + [x, y], head + [x', y'], tail);
  }

  lemma {:induction false} SameRemainder(z: int, z': int)
    ensures z % MODULUS == z' % MODULUS <==> (z' - z) % MODULUS == 0
  {
    assert z' - z == MODULUS * (z' / MODULUS - z / MODULUS) + (z' % MODULUS - z % MODULUS);
  }

  lemma {:induction false} HashOfTwo(head: seq<Octet>, x: Octet, y: Octet)
    ensures Hash(head + [x, y]) == ((Hash(head) * FACTOR + x) * FACTOR + y) % MODULUS
  {
    assert (head + [x, y])[..|head| + 1] == head + [x];
    assert (head + [x])[..|head|] == head;
    StepReduces(Hash(head) * FACTOR + x, y);
  }
}
