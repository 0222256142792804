/** The traceparent check: a split on '-', and the exact language it accepts. */
module Traceparent {

  /** The parts between the dashes; the empty text has one empty part. */
  function Split(s: string): (parts: seq<string>)
    ensures |parts| > 0
  {
    if |s| == 0 then [""] else
    var rest := Split(s[1..]);
    if s[0] == '-' then [""] + rest else [[s[0]] + rest[0]] + rest[1..]
  }

  function Join(parts: seq<string>): string
    requires |parts| > 0
  {
    if |parts| == 1 then parts[0] else parts[0] + "-" + Join(parts[1..])
  }

  ghost predicate NoDash(s: string) {
    '-' !in s
  }

  /** Joining undoes splitting. */
  lemma {:induction false} JoinOfSplit(s: string)
    ensures Join(Split(s)) == s
  {
    if |s| > 0 {
      var rest := Split(s[1..]);
      JoinOfSplit(s[1..]);
      assert s == [s[0]] + s[1..];
      if s[0] == '-' {
        assert ([""] + rest)[1..] == rest;
        assert "" + "-" + s[1..] == s;
      } else {
        var head := [s[0]] + rest[0];
        assert ([head] + rest[1..])[1..] == rest[1..];
        if |rest| > 1 {
          assert head + "-" + Join(rest[1..]) == [s[0]] + (rest[0] + "-" + Join(rest[1..]));
        }
      }
    }
  }

  /** A dashless text in front of u joins the first part of u. */
  lemma {:induction false} SplitAfterPrefix(p: string, u: string)
    requires NoDash(p)
    ensures Split(p + u) == [p + Split(u)[0]] + Split(u)[1..]
  {
    if |p| == 0 {
      assert p + u == u && p + Split(u)[0] == Split(u)[0];
    } else {
      var rest := p[1..];
      assert p == [p[0]] + rest && p[0] in p;
      SplitAfterPrefix(rest, u);
      assert (p + u)[0] == p[0] && (p + u)[1..] == rest + u;
      assert [p[0]] + (rest + Split(u)[0]) == p + Split(u)[0];
    }
  }

  /** Splitting undoes joining when no part has a dash of its own. */
  lemma {:induction false} SplitOfJoin(parts: seq<string>)
    requires |parts| > 0 && forall j | 0 <= j < |parts| :: NoDash(parts[j])
    ensures Split(Join(parts)) == parts
  {
    var p := parts[0];
    if |parts| == 1 {
      SplitAfterPrefix(p, "");
      assert p + "" == p;
    } else {
      var tail := "-" + Join(parts[1..]);
      SplitOfJoin(parts[1..]);
      SplitAfterPrefix(p, tail);
      assert tail[1..] == Join(parts[1..]);
      assert Split(tail) == [""] + parts[1..];
      assert p + "" == p;
      assert Join(parts) == p + tail;
    }
  }

  predicate IsHexDigitLowercase(s: string) {
    forall i | 0 <= i < |s| :: '0' <= s[i] <= '9' || 'a' <= s[i] <= 'f'
  }

  predicate IsAllZeros(s: string) {
    forall i | 0 <= i < |s| :: s[i] == '0'
  }

  /** The check on the text of the header. */
  predicate Accepts(s: string) {
    var parts := Split(s);
    && |parts| == 4
    && parts[0] == "00"
    && |parts[1]| == 32 && |parts[2]| == 16 && |parts[3]| == 2
    && IsHexDigitLowercase(parts[1]) && IsHexDigitLowercase(parts[2]) && IsHexDigitLowercase(parts[3])
    && !IsAllZeros(parts[1]) && !IsAllZeros(parts[2])
  }

  /** Version 00 of the format in section 3.2.2 of W3C Trace Context. */
  datatype TraceContext = TraceContext(traceId: string, parentId: string, flags: string)

  const HEX := "0123456789abcdef"

  /** Every character is one of the sixteen. */
  ghost predicate InHex(s: string) {
    forall c | c in s :: c in HEX
  }

  /** Some character is not '0'. */
  ghost predicate NonZero(s: string) {
    exists c :: c in s && c != '0'
  }

  ghost predicate WellFormed(t: TraceContext) {
    && |t.traceId| == 32 && |t.parentId| == 16 && |t.flags| == 2
    && InHex(t.traceId) && InHex(t.parentId) && InHex(t.flags)
    && NonZero(t.traceId) && NonZero(t.parentId)
  }

  lemma {:induction false} HexAlphabet(c: char)
    ensures c in HEX <==> '0' <= c <= '9' || 'a' <= c <= 'f'
  {
    if '0' <= c <= '9' {
      assert HEX[c as int - '0' as int] == c;
    } else if 'a' <= c <= 'f' {
      assert HEX[c as int - 'a' as int + 10] == c;
    }
  }

  /** The two character tests of the check, in terms of the alphabet. */
  lemma {:induction false} TestsMean(s: string)
    ensures IsHexDigitLowercase(s) <==> InHex(s)
    ensures !IsAllZeros(s) <==> NonZero(s)
  {
    forall c ensures c in HEX <==> '0' <= c <= '9' || 'a' <= c <= 'f' {
      HexAlphabet(c);
    }
    forall i | 0 <= i < |s| ensures s[i] in s {
    }
  }

  function Print(t: TraceContext): string {
    "00-" + t.traceId + "-" + t.parentId + "-" + t.flags
  }

  lemma {:induction false} PrintIsJoin(t: TraceContext)
    ensures Print(t) == Join(["00", t.traceId, t.parentId, t.flags])
  {
    assert ["00", t.traceId, t.parentId, t.flags][1..] == [t.traceId, t.parentId, t.flags];
    assert [t.traceId, t.parentId, t.flags][1..] == [t.parentId, t.flags];
    assert [t.parentId, t.flags][1..] == [t.flags];
    assert Join([t.flags]) == t.flags;
    assert Join([t.parentId, t.flags]) == t.parentId + "-" + t.flags;
    assert Join([t.traceId, t.parentId, t.flags]) == t.traceId + "-" + (t.parentId + "-" + t.flags);
    assert Print(t) == "00" + "-" + (t.traceId + "-" + (t.parentId + "-" + t.flags));
  }

  lemma {:induction false} HexHasNoDash(s: string)
    requires InHex(s)
    ensures NoDash(s)
  {
    HexAlphabet('-');
  }

  lemma {:induction false} SplitOfPrint(t: TraceContext)
    requires WellFormed(t)
    ensures Split(Print(t)) == ["00", t.traceId, t.parentId, t.flags]
  {
    PrintIsJoin(t);
    HexHasNoDash(t.traceId);
    HexHasNoDash(t.parentId);
    HexHasNoDash(t.flags);
    SplitOfJoin(["00", t.traceId, t.parentId, t.flags]);
  }

  /** The check accepts exactly the printed well-formed contexts. */
  lemma {:induction false} AcceptedLanguage(s: string)
    ensures Accepts(s) <==> exists t :: WellFormed(t) && s == Print(t)
  {
    if Accepts(s) {
      var parts := Split(s);
      var t := TraceContext(parts[1], parts[2], parts[3]);
      TestsMean(t.traceId);
      TestsMean(t.parentId);
      TestsMean(t.flags);
      JoinOfSplit(s);
      PrintIsJoin(t);
      assert parts == ["00", t.traceId, t.parentId, t.flags];
      assert WellFormed(t) && s == Print(t);
    }
    if t :| WellFormed(t) && s == Print(t) {
      SplitOfPrint(t);
      TestsMean(t.traceId);
      TestsMean(t.parentId);
      TestsMean(t.flags);
    }
  }

  /** And each accepted text is printed by only one of them. */
  lemma {:induction false} AcceptedUniquely(t: TraceContext, u: TraceContext)
    requires WellFormed(t) && WellFormed(u) && Print(t) == Print(u)
    ensures t == u
  {
    SplitOfPrint(t);
    SplitOfPrint(u);
    assert t.traceId == Split(Print(t))[1] && t.parentId == Split(Print(t))[2] && t.flags == Split(Print(t))[3];
  }

  /** What a header value must consist of to be read as text at all. */
  predicate IsVisibleAscii(s: string) {
    forall i | 0 <= i < |s| :: ' ' <= s[i] <= '~' || s[i] == '\t'
  }

  lemma {:induction false} AcceptedIsText(s: string)
    requires Accepts(s)
    ensures IsVisibleAscii(s) && |s| == 55
  {
    hide Accepts, IsVisibleAscii, InHex, NonZero;
    AcceptedLanguage(s);
    var t :| WellFormed(t) && s == Print(t);
    HexIsText(t.traceId);
    HexIsText(t.parentId);
    HexIsText(t.flags);
    TextIsText("00-", t.traceId);
    TextIsText("-", t.parentId);
    TextIsText("-", t.flags);
    Concatenated("00-" + t.traceId, "-" + t.parentId);
    Concatenated("00-" + t.traceId + ("-" + t.parentId), "-" + t.flags);
    assert Print(t) == "00-" + t.traceId + ("-" + t.parentId) + ("-" + t.flags);
  }

  lemma {:induction false} TextIsText(front: string, s: string)
    requires front in {"00-", "-"} && IsVisibleAscii(s)
    ensures IsVisibleAscii(front + s)
  {
  }

  lemma {:induction false} Concatenated(s: string, u: string)
    requires IsVisibleAscii(s) && IsVisibleAscii(u)
    ensures IsVisibleAscii(s + u)
  {
  }

  lemma {:induction false} HexIsText(s: string)
    requires InHex(s)
    ensures IsVisibleAscii(s)
  {
    forall i | 0 <= i < |s| ensures ' ' <= s[i] <= '~' {
      assert s[i] in s;
      HexAlphabet(s[i]);
    }
  }
}
