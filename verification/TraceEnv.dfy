/** `parse_traceparent`: the trace context of the environment variable TRACEPARENT overrides the
    identifiers of a record. */
module TraceEnv {
  import opened JsonText
  import opened SpanContext
  import SP = StringPacking

  datatype Ids = Ids(trace: seq<nat>, span: seq<nat>)

  predicate ValidIds(ids: Ids) { IsId(ids.trace, TRACE_BYTES) && IsId(ids.span, SPAN_BYTES) }

  /** The first '-' at or behind i, or the end of the text. */
  function Dash(t: string, i: nat): (j: nat)
    requires i <= |t|
    ensures i <= j <= |t| && (j < |t| ==> t[j] == '-') && forall k :: i <= k < j ==> t[k] != '-'
    decreases |t| - i
  {
    if i < |t| && t[i] != '-' then Dash(t, i + 1) else i
  }

  predicate HasTrace(t: string, p: nat) { p + 32 <= |t| && HexFrom(t, p, TRACE_BYTES) }

  predicate HasSpan(t: string, p: nat) { p < |t| && t[p] == '-' && p + 17 <= |t| }

  /** The identifiers after the variable with text t was read. */
  function FromText(t: string, ids: Ids): (r: Ids)
    requires ValidIds(ids)
    ensures ValidIds(r)
  {
    var p := Dash(t, 0) + 1;
    if p + 32 > |t| then ids
    else if !HasTrace(t, p) || !HasSpan(t, p + 32) then ids.(trace := Zeros(TRACE_BYTES))
    else if !HexFrom(t, p + 33, SPAN_BYTES) then Ids(Zeros(TRACE_BYTES), Zeros(SPAN_BYTES))
    else Ids(BytesFrom(t, p, TRACE_BYTES), BytesFrom(t, p + 33, SPAN_BYTES))
  }

  function FromEnv(env: SP.Text, ids: Ids): (r: Ids)
    requires ValidIds(ids)
    ensures ValidIds(r)
  {
    if env.Absent? then ids else FromText(env.str, ids)
  }

  /** An exported header in the environment sets exactly the exported identifiers. */
  lemma ExportedIsAdopted(s: Slot, ids: Ids)
    requires s.Valid() && ValidIds(ids)
    ensures FromText(TraceParent(s), ids) == Ids(s.trace, s.span)
    ensures FromEnv(SP.Present(TraceParent(s)), ids) == Ids(s.trace, s.span) && FromEnv(SP.Absent, ids) == ids
  {
    var t := TraceParent(s);
    TraceParentParts(s);
    assert t[0] == '0' && t[1] == '0';
    DashAt(t, 0, 2);
    HexBack(t, 3, s.trace, TRACE_BYTES);
    HexBack(t, 36, s.span, SPAN_BYTES);
  }

  lemma {:induction false} DashAt(t: string, i: nat, j: nat)
    requires i <= j < |t| && t[j] == '-' && forall k :: i <= k < j ==> t[k] != '-'
    ensures Dash(t, i) == j
    decreases j - i
  {
    if i == j {
    } else {
      DashAt(t, i + 1, j);
    }
  }

  /** The text holds both identifiers. */
  predicate IsContext(t: string)
  {
    var p := Dash(t, 0) + 1;
    HasTrace(t, p) && HasSpan(t, p + 32) && HexFrom(t, p + 33, SPAN_BYTES)
  }

  /** Malformed text clears both identifiers of every record exactly when all 32 + 16 characters
      are there and only the span part is not hexadecimal; shorter text keeps identifiers. */
  lemma MalformedClearsIff(t: string)
    requires !IsContext(t)
    ensures (forall ids :: ValidIds(ids) ==> IsZero(FromText(t, ids).trace) && IsZero(FromText(t, ids).span)) <==>
            var p := Dash(t, 0) + 1; HasTrace(t, p) && HasSpan(t, p + 32)
  {
    var ids := Ids(seq(TRACE_BYTES, _ => 1), seq(SPAN_BYTES, _ => 1));
    assert ValidIds(ids) && ids.span[0] == 1;
    var p := Dash(t, 0) + 1;
    if !(HasTrace(t, p) && HasSpan(t, p + 32)) {
      assert FromText(t, ids).span == ids.span;
    }
  }

  /** Text is ignored, for every record, exactly when less than 32 characters follow its first dash. */
  lemma IgnoredIff(t: string)
    ensures (forall ids :: ValidIds(ids) ==> FromText(t, ids) == ids) <==> Dash(t, 0) + 33 > |t|
  {
    var a, b := AllBytes(1), AllBytes(2);
    assert a.trace[0] != b.trace[0];
    if Dash(t, 0) + 33 <= |t| {
      SameTrace(t, a, b);
    }
  }

  function AllBytes(n: nat): (ids: Ids)
    requires n < 256
    ensures ValidIds(ids) && ids.trace[0] == n
  {
    Ids(seq(TRACE_BYTES, _ => n), seq(SPAN_BYTES, _ => n))
  }

  lemma SameTrace(t: string, a: Ids, b: Ids)
    requires ValidIds(a) && ValidIds(b) && Dash(t, 0) + 33 <= |t|
    ensures FromText(t, a).trace == FromText(t, b).trace
  {
  }

  predicate HasFlags(t: string) { |t| >= TEXT_LENGTH && t[52] == '-' && HexFrom(t, 53, 1) }

  /** What is joined is read from the environment exactly when the version has no dash, and what
      is read from the environment is joined exactly when the version has two characters and the
      flags follow.  Both then take the same trace id; a text that is only joined clears it. */
  lemma AcceptedAlikeIff(t: string, ids: Ids)
    requires ValidIds(ids)
    ensures IsTraceParent(t) ==> (IsContext(t) <==> t[0] != '-' && t[1] != '-')
    ensures IsContext(t) ==> (IsTraceParent(t) <==> Dash(t, 0) == 2 && HasFlags(t))
    ensures IsContext(t) ==>
      var p := Dash(t, 0) + 1; FromText(t, ids) == Ids(BytesFrom(t, p, TRACE_BYTES), BytesFrom(t, p + 33, SPAN_BYTES))
    ensures IsTraceParent(t) ==>
      FromText(t, ids) == if IsContext(t) then Ids(BytesFrom(t, 3, TRACE_BYTES), BytesFrom(t, 36, SPAN_BYTES))
                          else ids.(trace := Zeros(TRACE_BYTES))
  {
    if IsTraceParent(t) {
      var p := Dash(t, 0) + 1;
      if t[0] != '-' && t[1] != '-' {
        DashAt(t, 0, 2);
      } else {
        assert p <= 2 && !IsHexPair(t, p);
        assert !HasTrace(t, p) by { assert !IsHexPair(t, p + 2 * 0); }
      }
    }
  }

  lemma HexAlike(t: string, u: string, p: nat, n: nat)
    requires HexFrom(t, p, n) && p + 2 * n <= |t| && p + 2 * n <= |u|
    requires forall k :: p <= k < p + 2 * n ==> u[k] == t[k]
    ensures HexFrom(u, p, n)
  {
    forall i | 0 <= i < n ensures IsHexPair(u, p + 2 * i) {
      assert IsHexPair(t, p + 2 * i);
    }
  }

  /** Neither is stricter: with a dash for its second character a header can only be joined, and
      without its flags it is only read from the environment. */
  lemma NeitherIsStricter(t: string)
    requires IsTraceParent(t) && IsContext(t)
    ensures IsTraceParent(t[1 := '-']) && !IsContext(t[1 := '-'])
    ensures IsContext(t[..52]) && !IsTraceParent(t[..52])
  {
    AcceptedAlikeIff(t, AllBytes(0));
    OnlyJoined(t, t[1 := '-']);
    OnlyRead(t, t[..52]);
  }

  lemma OnlyJoined(t: string, u: string)
    requires IsTraceParent(t) && u == t[1 := '-']
    ensures IsTraceParent(u) && !IsContext(u)
  {
    HexAlike(t, u, 3, TRACE_BYTES);
    HexAlike(t, u, 36, SPAN_BYTES);
    HexAlike(t, u, 53, 1);
    AcceptedAlikeIff(u, AllBytes(0));
  }

  lemma OnlyRead(t: string, v: string)
    requires IsTraceParent(t) && t[0] != '-' && t[1] != '-' && v == t[..52]
    ensures IsContext(v) && !IsTraceParent(v)
  {
    DashAt(v, 0, 2);
    HexAlike(t, v, 3, TRACE_BYTES);
    HexAlike(t, v, 36, SPAN_BYTES);
  }

  // ---- in place ----

  /** `hex_decode`: bytes are stored until a character is no hexadecimal digit. */
  method HexDecode(t: string, p: nat, out: array<nat>, n: nat) returns (ok: bool)
    requires p + 2 * n <= |t| && out.Length == n
    modifies out
    ensures ok == HexFrom(t, p, n)
    ensures ok ==> out[..] == BytesFrom(t, p, n)
  {
    for i := 0 to n
      invariant HexFrom(t, p, i) && forall k :: 0 <= k < i ==> out[k] == PairValue(t, p + 2 * k)
    {
      var hi, lo := HexValue(t[p + i * 2]), HexValue(t[p + i * 2 + 1]);
      if hi < 0 || lo < 0 {
        assert !IsHexPair(t, p + 2 * i);
        return false;
      }
      out[i] := 16 * hi + lo;
    }
    return true;
  }

  method Clear(id: array<nat>)
    modifies id
    ensures id[..] == Zeros(id.Length)
  {
    forall i | 0 <= i < id.Length {
      id[i] := 0;
    }
  }

  method SkipToDash(t: string) returns (j: nat)
    ensures j == Dash(t, 0)
  {
    j := 0;
    while j < |t| && t[j] != '-'
      invariant 0 <= j <= |t| && Dash(t, j) == Dash(t, 0)
    {
      j := j + 1;
    }
  }

  /** `parse_traceparent` on the text of the variable. */
  method ParseTraceParent(t: string, trace: array<nat>, span: array<nat>)
    requires trace != span && ValidIds(Ids(trace[..], span[..]))
    modifies trace, span
    ensures Ids(trace[..], span[..]) == FromText(t, old(Ids(trace[..], span[..])))
  {
    var dash := SkipToDash(t);
    if dash == |t| {
      return;
    }
    var p := dash + 1;
    if |t| - p < 32 {
      return;
    }
    var ok := HexDecode(t, p, trace, TRACE_BYTES);
    if !ok {
      Clear(trace);
      return;
    }
    p := p + 32;
    if p == |t| || t[p] != '-' {
      Clear(trace);
      return;
    }
    p := p + 1;
    if |t| - p < 16 {
      Clear(trace);
      return;
    }
    ok := HexDecode(t, p, span, SPAN_BYTES);
    if !ok {
      Clear(trace);
      Clear(span);
    }
  }
}
