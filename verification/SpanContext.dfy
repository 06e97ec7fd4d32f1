/** Spans as values: the stack of open spans of a thread, what starting, ending, exporting and
    joining do to it, and the traceparent text of section 3.2.2 of W3C Trace Context. */
module SpanContext {
  import opened JsonText

  const MAX_DEPTH: nat := 16
  const TRACE_BYTES: nat := 16
  const SPAN_BYTES: nat := 8
  const TEXT_LENGTH: nat := 55

  predicate IsId(id: seq<nat>, n: nat)
  {
    |id| == n && forall i :: 0 <= i < n ==> id[i] < 256
  }

  predicate IsZero(id: seq<nat>) { forall i :: 0 <= i < |id| ==> id[i] == 0 }

  /** `span_is_zero` and `is_zero_id`. */
  method AllZero(id: seq<nat>) returns (zero: bool)
    ensures zero == IsZero(id)
  {
    for i := 0 to |id|
      invariant forall k :: 0 <= k < i ==> id[k] == 0
    {
      if id[i] != 0 {
        return false;
      }
    }
    return true;
  }

  datatype Slot = Slot(trace: seq<nat>, span: seq<nat>, flags: nat)
  {
    predicate Valid() { IsId(trace, TRACE_BYTES) && IsId(span, SPAN_BYTES) && flags < 256 }
  }

  /** `base` is the trace context that was set explicitly for the thread. */
  datatype Context = Context(open: seq<Slot>, base: SetIds)

  datatype SetIds = Unset | Set(trace: seq<nat>, span: seq<nat>)

  predicate Valid(c: Context)
  {
    |c.open| <= MAX_DEPTH && (forall i :: 0 <= i < |c.open| ==> c.open[i].Valid()) &&
    (c.base.Set? ==> IsId(c.base.trace, TRACE_BYTES) && IsId(c.base.span, SPAN_BYTES))
  }

  function Zeros(n: nat): seq<nat> { seq(n, _ => 0) }

  /** `span_current_ids`, with the flags that are exported beside them. */
  function Current(c: Context): (s: Slot)
    requires Valid(c)
    ensures s.Valid()
  {
    if c.open != [] then c.open[|c.open| - 1]
    else if c.base.Set? then Slot(c.base.trace, c.base.span, 0)
    else Slot(Zeros(TRACE_BYTES), Zeros(SPAN_BYTES), 0)
  }

  /** Random bytes as an identifier: the last byte is set when all are zero. */
  function NonZero(id: seq<nat>, n: nat): (r: seq<nat>)
    requires n > 0 && IsId(id, n)
    ensures IsId(r, n) && !IsZero(r) && (!IsZero(id) ==> r == id)
    ensures IsZero(id) ==> r[n - 1] == 1 && IsZero(r[..n - 1])
  {
    if IsZero(id) then
      var r := id[n - 1 := 1];
      assert r[n - 1] == 1;
      r
    else id
  }

  datatype Pushed = Pushed(c: Context, token: nat)

  function Push(c: Context, s: Slot): Pushed
  {
    Pushed(c.(open := c.open + [s]), |c.open| + 1)
  }

  /** `clog_span_start`, with the random bytes it draws. */
  function Start(c: Context, rt: seq<nat>, rs: seq<nat>): Pushed
    requires Valid(c) && IsId(rt, TRACE_BYTES) && IsId(rs, SPAN_BYTES)
  {
    if |c.open| >= MAX_DEPTH then Pushed(c, 0)
    else
      var trace := if c.open != [] || c.base.Set? then Current(c).trace else NonZero(rt, TRACE_BYTES);
      Push(c, Slot(trace, NonZero(rs, SPAN_BYTES), Current(c).flags))
  }

  /** `clog_span_end`: only the token of the innermost span is accepted. */
  function End(c: Context, token: nat): Context
  {
    if token == 0 || token != |c.open| then c else c.(open := c.open[..|c.open| - 1])
  }

  // ---- traceparent text ----

  /** The hexadecimal text of the first n bytes. */
  function Hex(id: seq<nat>, n: nat): (s: string)
    requires n <= |id| && forall i :: 0 <= i < |id| ==> id[i] < 256
    ensures |s| == 2 * n
    ensures forall i :: 0 <= i < n ==> s[2 * i] == HexDigit(id[i] / 16) && s[2 * i + 1] == HexDigit(id[i] % 16)
  {
    if n == 0 then "" else Hex(id, n - 1) + [HexDigit(id[n - 1] / 16), HexDigit(id[n - 1] % 16)]
  }

  function TraceParent(s: Slot): (t: string)
    requires s.Valid()
    ensures |t| == TEXT_LENGTH
  {
    "00-" + Hex(s.trace, TRACE_BYTES) + "-" + Hex(s.span, SPAN_BYTES) + "-" + Hex([s.flags], 1)
  }

  /** Two hexadecimal digits stand at position p, in either case. */
  predicate IsHexPair(t: string, p: nat)
  {
    p + 1 < |t| && HexValue(t[p]) >= 0 && HexValue(t[p + 1]) >= 0
  }

  function PairValue(t: string, p: nat): (b: nat)
    requires IsHexPair(t, p)
    ensures b < 256
  {
    16 * HexValue(t[p]) + HexValue(t[p + 1])
  }

  predicate HexFrom(t: string, p: nat, n: nat)
  {
    forall i :: 0 <= i < n ==> IsHexPair(t, p + 2 * i)
  }

  /** What `clog_span_join` accepts; the version digits are not looked at, and more text may follow. */
  predicate IsTraceParent(t: string)
  {
    |t| >= TEXT_LENGTH && t[2] == '-' && t[35] == '-' && t[52] == '-' &&
    HexFrom(t, 3, TRACE_BYTES) && HexFrom(t, 36, SPAN_BYTES) && HexFrom(t, 53, 1)
  }

  function BytesFrom(t: string, p: nat, n: nat): (id: seq<nat>)
    requires HexFrom(t, p, n)
    ensures IsId(id, n) && forall i :: 0 <= i < n ==> id[i] == PairValue(t, p + 2 * i)
  {
    seq(n, i requires 0 <= i < n => assert IsHexPair(t, p + 2 * i); PairValue(t, p + 2 * i))
  }

  /** `clog_span_join`. */
  function Join(c: Context, t: string, rs: seq<nat>): Pushed
    requires Valid(c) && IsId(rs, SPAN_BYTES)
  {
    if |c.open| >= MAX_DEPTH || !IsTraceParent(t) then Pushed(c, 0)
    else Push(c, Slot(BytesFrom(t, 3, TRACE_BYTES), NonZero(rs, SPAN_BYTES), BytesFrom(t, 53, 1)[0]))
  }

  // ---- round trip ----

  lemma HexPairBack(t: string, p: nat, b: nat)
    requires b < 256 && p + 1 < |t| && t[p] == HexDigit(b / 16) && t[p + 1] == HexDigit(b % 16)
    ensures IsHexPair(t, p) && PairValue(t, p) == b
  {
    HexRoundTrip(b / 16);
    HexRoundTrip(b % 16);
  }

  /** The bytes of an identifier are read back from its text. */
  lemma HexBack(t: string, p: nat, id: seq<nat>, n: nat)
    requires IsId(id, n) && Looks(t, p, Hex(id, n))
    ensures HexFrom(t, p, n) && BytesFrom(t, p, n) == id
  {
    forall i | 0 <= i < n ensures IsHexPair(t, p + 2 * i) && PairValue(t, p + 2 * i) == id[i] {
      assert t[p + 2 * i] == Hex(id, n)[2 * i] && t[p + (2 * i + 1)] == Hex(id, n)[2 * i + 1];
      HexPairBack(t, p + 2 * i, id[i]);
    }
  }

  lemma TraceParentParts(s: Slot)
    requires s.Valid()
    ensures var t := TraceParent(s);
      t[2] == '-' && t[35] == '-' && t[52] == '-' &&
      Looks(t, 3, Hex(s.trace, TRACE_BYTES)) && Looks(t, 36, Hex(s.span, SPAN_BYTES)) && Looks(t, 53, Hex([s.flags], 1))
  {
  }

  /** Joining an exported context opens a span of the same trace with the same flags. */
  lemma JoinExported(c: Context, s: Slot, rs: seq<nat>)
    requires Valid(c) && s.Valid() && IsId(rs, SPAN_BYTES) && |c.open| < MAX_DEPTH
    ensures IsTraceParent(TraceParent(s))
    ensures var j := Join(c, TraceParent(s), rs);
      j.token == |c.open| + 1 && Valid(j.c) && j.c.open[..|c.open|] == c.open && j.c.base == c.base &&
      Current(j.c).trace == s.trace && Current(j.c).flags == s.flags && !IsZero(Current(j.c).span)
  {
    var t := TraceParent(s);
    TraceParentParts(s);
    HexBack(t, 3, s.trace, TRACE_BYTES);
    HexBack(t, 36, s.span, SPAN_BYTES);
    HexBack(t, 53, [s.flags], 1);
  }

  /** A hexadecimal digit in lower case. */
  function Lower(c: char): char
  {
    if 'A' <= c <= 'F' then c + ('a' - 'A') else c
  }

  lemma LowerDigit(c: char)
    requires HexValue(c) >= 0
    ensures HexDigit(HexValue(c)) == Lower(c)
  {
  }

  lemma PairAgain(t: string, p: nat, b: nat)
    requires IsHexPair(t, p) && b == PairValue(t, p)
    ensures HexDigit(b / 16) == Lower(t[p]) && HexDigit(b % 16) == Lower(t[p + 1])
  {
    LowerDigit(t[p]);
    LowerDigit(t[p + 1]);
    assert b / 16 == HexValue(t[p]) && b % 16 == HexValue(t[p + 1]);
  }

  /** Decoding and printing again gives the digits in lower case. */
  lemma HexAgain(t: string, p: nat, n: nat, i: nat)
    requires HexFrom(t, p, n) && i < n
    ensures p + 2 * i + 1 < |t|
    ensures Hex(BytesFrom(t, p, n), n)[2 * i] == Lower(t[p + 2 * i])
    ensures Hex(BytesFrom(t, p, n), n)[2 * i + 1] == Lower(t[p + 2 * i + 1])
  {
    assert IsHexPair(t, p + 2 * i);
    PairAgain(t, p + 2 * i, PairValue(t, p + 2 * i));
  }

  /** The texts differ in nothing but the case of hexadecimal letters. */
  ghost predicate SameButCase(t: string, u: string)
  {
    |t| == |u| && forall k :: 0 <= k < |t| ==> Lower(t[k]) == Lower(u[k])
  }

  lemma CaseOfDigit(c: char, d: char)
    requires Lower(c) == Lower(d)
    ensures HexValue(c) == HexValue(d) && (c == '-' <==> d == '-')
  {
  }

  lemma CaseOfPairs(t: string, u: string, p: nat, n: nat)
    requires SameButCase(t, u) && HexFrom(t, p, n)
    ensures HexFrom(u, p, n) && BytesFrom(t, p, n) == BytesFrom(u, p, n)
  {
    forall i | 0 <= i < n ensures IsHexPair(u, p + 2 * i) && PairValue(t, p + 2 * i) == PairValue(u, p + 2 * i) {
      assert IsHexPair(t, p + 2 * i);
      CaseOfDigit(t[p + 2 * i], u[p + 2 * i]);
      CaseOfDigit(t[p + 2 * i + 1], u[p + 2 * i + 1]);
    }
  }

  /** Headers are accepted in either case, and the case makes no difference to what is joined. */
  lemma CaseDoesNotMatter(c: Context, t: string, u: string, rs: seq<nat>)
    requires Valid(c) && IsId(rs, SPAN_BYTES) && SameButCase(t, u) && IsTraceParent(t)
    ensures IsTraceParent(u) && Join(c, t, rs) == Join(c, u, rs)
  {
    CaseOfDigit(t[2], u[2]);
    CaseOfDigit(t[35], u[35]);
    CaseOfDigit(t[52], u[52]);
    CaseOfPairs(t, u, 3, TRACE_BYTES);
    CaseOfPairs(t, u, 36, SPAN_BYTES);
    CaseOfPairs(t, u, 53, 1);
  }

  /** The text of u from p on is that of t, in lower case. */
  predicate LowerFrom(u: string, t: string, p: nat, n: nat)
  {
    forall i :: 0 <= i < n ==>
      p + 2 * i + 1 < |t| && p + 2 * i + 1 < |u| &&
      u[p + 2 * i] == Lower(t[p + 2 * i]) && u[p + 2 * i + 1] == Lower(t[p + 2 * i + 1])
  }

  lemma LowerAgain(u: string, t: string, p: nat, n: nat, h: string)
    requires HexFrom(t, p, n) && h == Hex(BytesFrom(t, p, n), n) && Looks(u, p, h)
    ensures LowerFrom(u, t, p, n)
  {
    forall i | 0 <= i < n
      ensures p + 2 * i + 1 < |t| && u[p + 2 * i] == Lower(t[p + 2 * i]) && u[p + 2 * i + 1] == Lower(t[p + 2 * i + 1])
    {
      HexAgain(t, p, n, i);
      assert u[p + 2 * i] == h[2 * i] && u[p + (2 * i + 1)] == h[2 * i + 1];
    }
  }

  /** The trace id of a header is written with zeros only. */
  predicate ZeroTrace(t: string)
  {
    |t| >= 35 && forall k :: 3 <= k < 35 ==> t[k] == '0'
  }

  lemma ZeroPair(t: string, p: nat)
    requires IsHexPair(t, p)
    ensures PairValue(t, p) == 0 <==> t[p] == '0' && t[p + 1] == '0'
  {
  }

  lemma ZeroTraceIff(t: string)
    requires IsTraceParent(t)
    ensures IsZero(BytesFrom(t, 3, TRACE_BYTES)) <==> ZeroTrace(t)
  {
    var id := BytesFrom(t, 3, TRACE_BYTES);
    forall i | 0 <= i < TRACE_BYTES ensures id[i] == 0 <==> t[3 + 2 * i] == '0' && t[3 + 2 * i + 1] == '0' {
      assert IsHexPair(t, 3 + 2 * i);
      ZeroPair(t, 3 + 2 * i);
    }
    if IsZero(id) {
      forall k | 3 <= k < 35 ensures t[k] == '0' {
        assert id[(k - 3) / 2] == 0;
      }
    }
  }

  /** The header of a joined context has the trace id and flags of the text, in lower case; the
      context can be exported, having a trace id, unless the text has a trace id of zeros.  Where
      the text or the depth does not allow a join nothing changes. */
  lemma JoinedIsExported(c: Context, t: string, rs: seq<nat>)
    requires Valid(c) && IsId(rs, SPAN_BYTES)
    ensures var j := Join(c, t, rs);
      Valid(j.c) &&
      if j.token == 0 then j.c == c
      else
        var u := TraceParent(Current(j.c));
        (IsZero(Current(j.c).trace) <==> ZeroTrace(t)) &&
        u[2] == u[35] == u[52] == '-' && LowerFrom(u, t, 3, TRACE_BYTES) && LowerFrom(u, t, 53, 1)
  {
    var j := Join(c, t, rs);
    if j.token != 0 {
      var s := Current(j.c);
      ZeroTraceIff(t);
      TraceParentParts(s);
      assert BytesFrom(t, 53, 1) == [s.flags];
      LowerAgain(TraceParent(s), t, 3, TRACE_BYTES, Hex(s.trace, TRACE_BYTES));
      LowerAgain(TraceParent(s), t, 53, 1, Hex([s.flags], 1));
    }
  }

  /** A context that was set explicitly, with no span open: it is exported with version 00 and flags
      00, and a span that is started there belongs to its trace. */
  lemma SetIsCurrent(base: SetIds, trace: seq<nat>, span: seq<nat>, rt: seq<nat>, rs: seq<nat>)
    requires base == Set(trace, span) && IsId(trace, TRACE_BYTES) && IsId(span, SPAN_BYTES)
    requires IsId(rt, TRACE_BYTES) && IsId(rs, SPAN_BYTES)
    ensures var c := Context([], base);
      && TraceParent(Current(c)) == "00-" + Hex(trace, 16) + "-" + Hex(span, 8) + "-00"
      && var d := Start(c, rt, rs).c; Valid(d) && Current(d).trace == trace && Current(d).flags == 0
  {
    var c := Context([], base);
    OpenPushes(c, ByStart(rt, rs));
    assert Hex([0], 1) == "" + "00";
  }

  // ---- well-nested runs ----

  datatype Opening = ByStart(rt: seq<nat>, rs: seq<nat>) | ByJoin(t: string, js: seq<nat>)

  predicate ValidOpening(o: Opening)
  {
    match o
    case ByStart(rt, rs) => IsId(rt, TRACE_BYTES) && IsId(rs, SPAN_BYTES)
    case ByJoin(_, js) => IsId(js, SPAN_BYTES)
  }

  /** Each span is opened, a run follows, and the token the opening returned is ended. */
  datatype Run = Done | Span(opening: Opening, inner: Run, next: Run)

  predicate ValidRun(r: Run)
  {
    r.Span? ==>
      ValidOpening(r.opening) && ValidRun(r.inner) && ValidRun(r.next)
  }

  function Open(c: Context, o: Opening): Pushed
    requires Valid(c)
    requires ValidOpening(o)
  {
    match o
    case ByStart(rt, rs) => Start(c, rt, rs)
    case ByJoin(t, js) => Join(c, t, js)
  }

  /** An opening either fails and changes nothing, or pushes one span. */
  lemma OpenPushes(c: Context, o: Opening)
    requires Valid(c)
    requires ValidOpening(o)
    ensures var p := Open(c, o);
      Valid(p.c) && p.c.base == c.base &&
      if p.token == 0 then p.c == c
      else p.token == |p.c.open| == |c.open| + 1 && p.c.open[..|c.open|] == c.open && !IsZero(Current(p.c).span)
  {
  }

  lemma OpenEnd(c: Context, o: Opening)
    requires Valid(c)
    requires ValidOpening(o)
    ensures End(Open(c, o).c, Open(c, o).token) == c
  {
    OpenPushes(c, o);
  }

  /** A started span continues the current trace with its flags, and begins a new one when there
      is none. */
  lemma StartInherits(c: Context, rt: seq<nat>, rs: seq<nat>)
    requires Valid(c) && IsId(rt, TRACE_BYTES) && IsId(rs, SPAN_BYTES) && |c.open| < MAX_DEPTH
    ensures var p := Start(c, rt, rs);
      Valid(p.c) && Current(p.c).flags == Current(c).flags &&
      (c.open != [] || c.base.Set? ==> Current(p.c).trace == Current(c).trace) &&
      (!IsZero(Current(c).trace) ==> Current(p.c).trace == Current(c).trace) &&
      (!IsZero(rs) ==> Current(p.c).span == rs) &&
      (c.open == [] && c.base.Unset? ==> !IsZero(Current(p.c).trace))
  {
    OpenPushes(c, ByStart(rt, rs));
    assert IsZero(Zeros(TRACE_BYTES));
  }

  /** The context after n starts in a row. */
  function Starts(c: Context, rts: seq<seq<nat>>, rss: seq<seq<nat>>, n: nat): (d: Context)
    requires Valid(c) && n <= |rts| == |rss|
    requires forall i :: 0 <= i < |rts| ==> IsId(rts[i], TRACE_BYTES) && IsId(rss[i], SPAN_BYTES)
    ensures Valid(d)
  {
    if n == 0 then c
    else
      var d := Starts(c, rts, rss, n - 1);
      OpenPushes(d, ByStart(rts[n - 1], rss[n - 1]));
      Start(d, rts[n - 1], rss[n - 1]).c
  }

  /** All spans started inside a span belong to its trace and carry its flags, however deep. */
  lemma {:induction false} StartsShareTrace(c: Context, rts: seq<seq<nat>>, rss: seq<seq<nat>>, n: nat)
    requires Valid(c) && n <= |rts| == |rss| && !IsZero(Current(c).trace)
    requires forall i :: 0 <= i < |rts| ==> IsId(rts[i], TRACE_BYTES) && IsId(rss[i], SPAN_BYTES)
    ensures Current(Starts(c, rts, rss, n)).trace == Current(c).trace
    ensures Current(Starts(c, rts, rss, n)).flags == Current(c).flags
  {
    if n == 0 {
    } else {
      StartsShareTrace(c, rts, rss, n - 1);
      StartKeepsTrace(Starts(c, rts, rss, n - 1), rts[n - 1], rss[n - 1], Current(c).trace, Current(c).flags);
    }
  }

  lemma StartKeepsTrace(c: Context, rt: seq<nat>, rs: seq<nat>, trace: seq<nat>, flags: nat)
    requires Valid(c) && IsId(rt, TRACE_BYTES) && IsId(rs, SPAN_BYTES)
    requires Current(c).trace == trace && Current(c).flags == flags && !IsZero(trace)
    ensures Valid(Start(c, rt, rs).c)
    ensures Current(Start(c, rt, rs).c).trace == trace && Current(Start(c, rt, rs).c).flags == flags
  {
    if |c.open| < MAX_DEPTH {
      StartInherits(c, rt, rs);
    }
  }

  /** The context after a run. */
  function Execute(c: Context, r: Run): (d: Context)
    requires Valid(c) && ValidRun(r)
    ensures Valid(d)
    decreases r
  {
    match r
    case Done => c
    case Span(o, inner, next) =>
      OpenPushes(c, o);
      var p := Open(c, o);
      Execute(End(Execute(p.c, inner), p.token), next)
  }

  /** A well-nested run restores the context, and with it the current identifiers, even where
      openings fail. */
  lemma {:induction false} RunRestores(c: Context, r: Run)
    requires Valid(c) && ValidRun(r)
    ensures Execute(c, r) == c
    decreases r
  {
    if r.Span? {
      OpenPushes(c, r.opening);
      RunRestores(Open(c, r.opening).c, r.inner);
      OpenEnd(c, r.opening);
      RunRestores(c, r.next);
    }
  }
}
