/** The header rewriting of a forwarded request on a multi-valued header map. */
module Headers {
  import opened Backends
  import Traceparent

  /** Lower-case names to their values in order; a name that is present has at least one value. */
  type Entries = map<string, seq<string>>

  ghost predicate NonEmptyValues(m: Entries) {
    forall name | name in m :: |m[name]| > 0
  }

  function Values(m: Entries, name: string): seq<string> {
    if name in m then m[name] else []
  }

  /** Section 13.5.1 of RFC 2616. */
  const HOP_BY_HOP: seq<string> := [
    "connection", "keep-alive", "proxy-authenticate", "proxy-authorization",
    "te", "trailers", "transfer-encoding", "upgrade"]

  const TRACE_CONTEXT: seq<string> := ["traceparent", "tracestate", "baggage"]

  /** The same names one by one, for the specifications. */
  ghost predicate IsHopByHop(name: string) {
    || name == "connection" || name == "keep-alive" || name == "proxy-authenticate" || name == "proxy-authorization"
    || name == "te" || name == "trailers" || name == "transfer-encoding" || name == "upgrade"
  }

  ghost predicate IsTraceContext(name: string) {
    name == "traceparent" || name == "tracestate" || name == "baggage"
  }

  lemma {:induction false} ListedNames(name: string)
    ensures name in HOP_BY_HOP <==> IsHopByHop(name)
    ensures name in TRACE_CONTEXT <==> IsTraceContext(name)
  {
    HopByHopListed(name);
    hide IsHopByHop;
    var t := TRACE_CONTEXT;
    assert t[0] in t && t[1] in t && t[2] in t;
  }

  lemma {:induction false} HopByHopListed(name: string)
    ensures name in HOP_BY_HOP <==> IsHopByHop(name)
  {
    InEight(name, "connection", "keep-alive", "proxy-authenticate", "proxy-authorization",
            "te", "trailers", "transfer-encoding", "upgrade");
  }

  lemma {:induction false} InEight(x: string, a: string, b: string, c: string, d: string,
                                   e: string, f: string, g: string, h: string)
    ensures x in [a, b, c, d, e, f, g, h]
       <==> x == a || x == b || x == c || x == d || x == e || x == f || x == g || x == h
  {
    var s := [a, b, c, d, e, f, g, h];
    assert s[0] == a && s[1] == b && s[2] == c && s[3] == d && s[4] == e && s[5] == f && s[6] == g && s[7] == h;
  }

  const FORWARDED: seq<string> := ["x-forwarded-for", "x-forwarded-proto", "host", "x-forwarded-host"]

  class HeaderMap {
    var entries: Entries

    ghost predicate Valid()
      reads this
    {
      NonEmptyValues(entries)
    }

    constructor (entries: Entries)
      requires NonEmptyValues(entries)
      ensures Valid() && this.entries == entries
    {
      this.entries := entries;
    }

    /** The first value of a name. */
    function Get(name: string): (v: Option<string>)
      requires Valid()
      reads this
      ensures v == if Values(entries, name) == [] then None else Some(Values(entries, name)[0])
    {
      if name in entries then Some(entries[name][0]) else None
    }

    /** Replaces every value of a name by one. */
    method Insert(name: string, value: string)
      requires Valid()
      modifies this
      ensures Valid() && entries == old(entries)[name := [value]]
    {
      entries := entries[name := [value]];
    }

    /** Removes every value of a name. */
    method Remove(name: string)
      requires Valid()
      modifies this
      ensures Valid() && entries == old(entries) - {name}
    {
      entries := entries - {name};
    }

    method RemoveAll(names: seq<string>)
      requires Valid()
      modifies this
      ensures Valid() && entries == Without(old(entries), names)
    {
      ghost var start := entries;
      for i := 0 to |names|
        invariant Valid() && entries == Without(start, names[..i])
      {
        Remove(names[i]);
        assert names[..i + 1] == names[..i] + [names[i]];
      }
      assert names[..|names|] == names;
    }
  }

  /** The map with the given names gone. */
  function Without(m: Entries, names: seq<string>): Entries {
    map name | name in m && name !in names :: m[name]
  }

  function Inserted(m: Entries, client: string, backend: string): Entries {
    var n := m["x-forwarded-for" := [client]]["x-forwarded-proto" := ["http"]];
    var h := Values(n, "host");
    var o := n["host" := [backend]];
    if h == [] then o else o["x-forwarded-host" := [h[0]]]
  }

  /** What stands under a name once the forwarded headers are set, read off the headers before. */
  ghost function Forwarded(m: Entries, client: string, backend: string, name: string): seq<string> {
    if name == "x-forwarded-for" then [client]
    else if name == "x-forwarded-proto" then ["http"]
    else if name == "host" then [backend]
    else if name == "x-forwarded-host" && Values(m, "host") != [] then [Values(m, "host")[0]]
    else Values(m, name)
  }

  method InsertXForwardedHeaders(headers: HeaderMap, client: string, backend: string)
    requires headers.Valid()
    modifies headers
    ensures headers.Valid() && headers.entries == Inserted(old(headers.entries), client, backend)
    ensures forall name :: Values(headers.entries, name) == Forwarded(old(headers.entries), client, backend, name)
  {
    ghost var start := headers.entries;
    headers.Insert("x-forwarded-for", client);
    headers.Insert("x-forwarded-proto", "http");
    var originalHost := headers.Get("host");
    headers.Insert("host", backend);
    if originalHost.Some? {
      headers.Insert("x-forwarded-host", originalHost.value);
    }
    forall name ensures Values(headers.entries, name) == Forwarded(start, client, backend, name) {
      InsertedValues(start, client, backend, name);
    }
  }

  method StripHopByHopHeaders(headers: HeaderMap)
    requires headers.Valid()
    modifies headers
    ensures headers.Valid() && headers.entries == Without(old(headers.entries), HOP_BY_HOP)
    ensures forall name ::
        Values(headers.entries, name) == if IsHopByHop(name) then [] else Values(old(headers.entries), name)
  {
    ghost var start := headers.entries;
    headers.RemoveAll(HOP_BY_HOP);
    forall name ensures Values(headers.entries, name) == if IsHopByHop(name) then [] else Values(start, name) {
      ListedNames(name);
    }
  }

  /** Present, readable as text, and accepted. */
  predicate ValidTraceparent(m: Entries) {
    var v := Values(m, "traceparent");
    v != [] && Traceparent.IsVisibleAscii(v[0]) && Traceparent.Accepts(v[0])
  }

  function TraceFiltered(m: Entries): Entries {
    if ValidTraceparent(m) then m else Without(m, TRACE_CONTEXT)
  }

  method PropagateOrStripOtelContext(headers: HeaderMap)
    requires headers.Valid()
    modifies headers
    ensures headers.Valid() && headers.entries == TraceFiltered(old(headers.entries))
    ensures forall name ::
        Values(headers.entries, name)
        == if IsTraceContext(name) && !CarriesContext(Values(old(headers.entries), "traceparent")) then []
           else Values(old(headers.entries), name)
  {
    ghost var start := headers.entries;
    ValidTraceparentMeaning(start);
    forall name ensures Values(TraceFiltered(start), name)
      == if IsTraceContext(name) && !CarriesContext(Values(start, "traceparent")) then [] else Values(start, name)
    {
      ListedNames(name);
    }
    hide CarriesContext;
    var traceparent := headers.Get("traceparent");
    if traceparent.None? || !Traceparent.IsVisibleAscii(traceparent.value) || !Traceparent.Accepts(traceparent.value) {
      headers.RemoveAll(TRACE_CONTEXT);
    }
  }

  // ---------- The whole pipeline ----------

  function Pipeline(m: Entries, client: string, backend: string): Entries {
    TraceFiltered(Without(Inserted(m, client, backend), HOP_BY_HOP))
  }

  method RewriteRequest(headers: HeaderMap, client: string, backend: string)
    requires headers.Valid()
    modifies headers
    ensures headers.Valid()
    ensures forall name :: Values(headers.entries, name) == Rewritten(old(headers.entries), client, backend, name)
  {
    ghost var start := headers.entries;
    InsertXForwardedHeaders(headers, client, backend);
    StripHopByHopHeaders(headers);
    PropagateOrStripOtelContext(headers);
    forall name ensures Values(headers.entries, name) == Rewritten(start, client, backend, name) {
      PipelineMeaning(start, client, backend, name);
    }
  }

  /** The first value prints a well-formed trace context. */
  ghost predicate CarriesContext(values: seq<string>) {
    values != [] && exists t :: Traceparent.WellFormed(t) && values[0] == Traceparent.Print(t)
  }

  /** What the backend receives under a name, read off the client's headers alone. */
  ghost function Rewritten(m: Entries, client: string, backend: string, name: string): seq<string> {
    if IsHopByHop(name) then []
    else if IsTraceContext(name) then
      if CarriesContext(Values(m, "traceparent")) then Values(m, name) else []
    else Forwarded(m, client, backend, name)
  }

  lemma {:induction false} NamesAreApart()
    ensures forall name | name in TRACE_CONTEXT :: name !in HOP_BY_HOP && name !in FORWARDED
    ensures forall name | name in FORWARDED :: name !in HOP_BY_HOP
    ensures "host" != "x-forwarded-for" && "host" != "x-forwarded-proto" && "host" != "x-forwarded-host"
    ensures "x-forwarded-for" != "x-forwarded-proto" && "x-forwarded-for" != "x-forwarded-host"
    ensures "x-forwarded-proto" != "x-forwarded-host"
  {
  }

  lemma {:induction false} InsertedValues(m: Entries, client: string, backend: string, name: string)
    ensures Values(Inserted(m, client, backend), name) == Forwarded(m, client, backend, name)
  {
    NamesAreApart();
  }

  lemma {:induction false} ValidTraceparentMeaning(m: Entries)
    ensures ValidTraceparent(m) <==> CarriesContext(Values(m, "traceparent"))
  {
    if Values(m, "traceparent") != [] {
      Traceparent.AcceptedLanguage(Values(m, "traceparent")[0]);
      if Traceparent.Accepts(Values(m, "traceparent")[0]) {
        Traceparent.AcceptedIsText(Values(m, "traceparent")[0]);
      }
    }
  }

  /** Insert, then strip, then filter gives every name exactly its specified values. */
  lemma {:induction false} PipelineMeaning(m: Entries, client: string, backend: string, name: string)
    ensures Values(Pipeline(m, client, backend), name) == Rewritten(m, client, backend, name)
  {
    ListedNames(name);
    ListedNames("traceparent");
    var inserted := Inserted(m, client, backend);
    var stripped := Without(inserted, HOP_BY_HOP);
    NamesAreApart();
    assert "traceparent" in TRACE_CONTEXT;
    assert "x-forwarded-for" in FORWARDED && "x-forwarded-proto" in FORWARDED;
    assert "host" in FORWARDED && "x-forwarded-host" in FORWARDED;
    InsertedValues(m, client, backend, name);
    InsertedValues(m, client, backend, "traceparent");
    ValidTraceparentMeaning(stripped);
    ValidTraceparentMeaning(m);
  }

  /** Stripping and trace filtering commute, and doing either twice changes nothing more. */
  lemma {:induction false} StripAndFilterCommute(m: Entries)
    ensures TraceFiltered(Without(m, HOP_BY_HOP)) == Without(TraceFiltered(m), HOP_BY_HOP)
    ensures Without(Without(m, HOP_BY_HOP), HOP_BY_HOP) == Without(m, HOP_BY_HOP)
    ensures TraceFiltered(TraceFiltered(m)) == TraceFiltered(m)
  {
    NamesAreApart();
    assert "traceparent" in TRACE_CONTEXT;
    assert Values(Without(m, HOP_BY_HOP), "traceparent") == Values(m, "traceparent");
  }

  /** A second proxy in line changes only the forwarded host: it becomes the first backend's address. */
  lemma {:induction false} ChainedProxies(m: Entries, client: string, backend: string, client': string,
                                          backend': string, name: string)
    ensures Values(Pipeline(Pipeline(m, client, backend), client', backend'), name) ==
      if name == "x-forwarded-host" then [backend] else Values(Pipeline(m, client', backend'), name)
  {
    hide Pipeline, Values, CarriesContext;
    var once := Pipeline(m, client, backend);
    NamesAreApart();
    assert "host" in FORWARDED && "x-forwarded-host" in FORWARDED && "traceparent" in TRACE_CONTEXT;
    PipelineMeaning(once, client', backend', name);
    PipelineMeaning(m, client, backend, name);
    PipelineMeaning(m, client', backend', name);
    PipelineMeaning(m, client, backend, "host");
    PipelineMeaning(m, client, backend, "traceparent");
  }
}
