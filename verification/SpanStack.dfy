/** The thread-local span stack of `core/log.c`: an array of slots and a depth. */
module SpanStack {
  import opened CStrings
  import opened JsonText
  import opened SpanContext


  class Stack {
    const slots: array<Slot>
    var depth: nat
    var hasBase: bool
    var baseTrace: seq<nat>
    var baseSpan: seq<nat>

    ghost predicate Consistent()
      reads this, slots
    {
      slots.Length == MAX_DEPTH && depth <= MAX_DEPTH && Valid(View())
    }

    ghost function View(): Context
      reads this, slots
      requires depth <= slots.Length
    {
      Context(slots[..depth], if hasBase then Set(baseTrace, baseSpan) else Unset)
    }

    constructor ()
      ensures Consistent() && fresh(slots) && View() == Context([], Unset)
    {
      slots := new Slot[MAX_DEPTH](_ => Slot(Zeros(TRACE_BYTES), Zeros(SPAN_BYTES), 0));
      depth, hasBase := 0, false;
      baseTrace, baseSpan := Zeros(TRACE_BYTES), Zeros(SPAN_BYTES);
    }

    /** `clog_set_trace_context`. */
    method SetTraceContext(trace: seq<nat>, span: seq<nat>)
      requires Consistent() && IsId(trace, TRACE_BYTES) && IsId(span, SPAN_BYTES)
      modifies this
      ensures Consistent() && View() == old(View()).(base := Set(trace, span))
    {
      baseTrace, baseSpan, hasBase := trace, span, true;
    }

    /** `clog_clear_trace_context`. */
    method ClearTraceContext()
      requires Consistent()
      modifies this, slots
      ensures Consistent() && View() == Context([], Unset)
    {
      baseTrace, baseSpan := Zeros(TRACE_BYTES), Zeros(SPAN_BYTES);
      forall i | 0 <= i < slots.Length {
        slots[i] := Slot(Zeros(TRACE_BYTES), Zeros(SPAN_BYTES), 0);
      }
      depth, hasBase := 0, false;
    }

    /** `span_current_ids` and the flags of the top slot. */
    method CurrentIds() returns (s: Slot)
      requires Consistent()
      ensures s == Current(View())
    {
      if depth > 0 {
        return slots[depth - 1];
      }
      if hasBase {
        return Slot(baseTrace, baseSpan, 0);
      }
      return Slot(Zeros(TRACE_BYTES), Zeros(SPAN_BYTES), 0);
    }

    /** `span_new_span_id`, and the same for a new trace. */
    method NewId(random: seq<nat>, n: nat) returns (id: seq<nat>)
      requires n > 0 && IsId(random, n)
      ensures id == NonZero(random, n)
    {
      id := random;
      var zero := AllZero(random);
      if zero {
        id := id[n - 1 := 1];
      }
    }

    method PushSlot(s: Slot) returns (token: nat)
      requires Consistent() && depth < MAX_DEPTH && s.Valid()
      modifies this, slots
      ensures Consistent() && Pushed(View(), token) == Push(old(View()), s)
    {
      slots[depth] := s;
      depth := depth + 1;
      return depth;
    }

    /** `clog_span_start`. */
    method SpanStart(rt: seq<nat>, rs: seq<nat>) returns (token: nat)
      requires Consistent() && IsId(rt, TRACE_BYTES) && IsId(rs, SPAN_BYTES)
      modifies this, slots
      ensures Consistent() && Pushed(View(), token) == Start(old(View()), rt, rs)
    {
      if depth >= MAX_DEPTH {
        return 0;
      }
      var trace, flags := [], 0;
      if depth > 0 {
        trace, flags := slots[depth - 1].trace, slots[depth - 1].flags;
      } else if hasBase {
        trace := baseTrace;
      } else {
        trace := NewId(rt, TRACE_BYTES);
      }
      var span := NewId(rs, SPAN_BYTES);
      token := PushSlot(Slot(trace, span, flags));
    }

    /** `clog_span_end`. */
    method SpanEnd(token: nat) returns (ok: bool)
      requires Consistent()
      modifies this, slots
      ensures Consistent() && View() == End(old(View()), token)
      ensures ok <==> token != 0 && token == old(depth)
      ensures !ok ==> View() == old(View())
      ensures ok ==> View().open == old(View().open)[..old(depth) - 1] && View().base == old(View()).base
    {
      if token == 0 || token != depth {
        return false;
      }
      slots[depth - 1] := Slot(Zeros(TRACE_BYTES), Zeros(SPAN_BYTES), 0);
      depth := depth - 1;
      assert View().open == old(View()).open[..old(depth) - 1];
      return true;
    }

    /** Two hexadecimal digits per byte, from position p of the buffer on. */
    method PutHex(buf: array<char>, p: nat, id: seq<nat>) returns (next: nat)
      requires p + 2 * |id| <= buf.Length && forall i :: 0 <= i < |id| ==> id[i] < 256
      modifies buf
      ensures next == p + 2 * |id| && Looks(buf[..], p, Hex(id, |id|))
      ensures forall k :: 0 <= k < buf.Length && !(p <= k < next) ==> buf[k] == old(buf[k])
    {
      ghost var h := Hex(id, |id|);
      next := p;
      for i := 0 to |id|
        invariant next == p + 2 * i
        invariant forall k :: 0 <= k < buf.Length && !(p <= k < next) ==> buf[k] == old(buf[k])
        invariant forall k {:trigger h[k]} :: 0 <= k < 2 * i ==> buf[p + k] == h[k]
      {
        assert h[2 * i] == HexDigit(id[i] / 16) && h[2 * i + 1] == HexDigit(id[i] % 16);
        buf[next] := HexDigit(id[i] / 16);
        buf[next + 1] := HexDigit(id[i] % 16);
        next := next + 2;
      }
    }

    /** `clog_span_export`. */
    method SpanExport(buf: array<char>) returns (ok: bool)
      requires Consistent() && buf != slots as object
      modifies buf
      ensures Consistent() && View() == old(View())
      ensures ok <==> buf.Length >= TEXT_LENGTH + 1 && !IsZero(Current(View()).trace)
      ensures ok ==> buf[..TEXT_LENGTH] == TraceParent(Current(View())) && buf[TEXT_LENGTH] == NUL
      ensures !ok ==> buf[..] == old(buf[..])
    {
      if buf.Length < TEXT_LENGTH + 1 {
        return false;
      }
      var s := CurrentIds();
      var zero := AllZero(s.trace);
      if zero {
        return false;
      }
      WriteTraceParent(buf, s);
      return true;
    }

    method WriteTraceParent(buf: array<char>, s: Slot)
      requires s.Valid() && buf.Length >= TEXT_LENGTH + 1
      modifies buf
      ensures buf[..TEXT_LENGTH] == TraceParent(s) && buf[TEXT_LENGTH] == NUL
    {
      buf[0], buf[1], buf[2] := '0', '0', '-';
      var p := PutHex(buf, 3, s.trace);
      buf[p] := '-';
      ghost var t1 := buf[..];
      assert Looks(t1, 3, Hex(s.trace, TRACE_BYTES));
      p := PutHex(buf, p + 1, s.span);
      buf[p] := '-';
      ghost var t2 := buf[..];
      p := PutHex(buf, p + 1, [s.flags]);
      buf[p] := NUL;
      TextOfParts(buf[..], s);
    }

    /** Decodes n bytes; fails on a character that is no hexadecimal digit. */
    method GetHex(t: string, p: nat, n: nat) returns (ok: bool, id: seq<nat>)
      requires p + 2 * n <= |t|
      ensures ok == HexFrom(t, p, n)
      ensures ok ==> id == BytesFrom(t, p, n)
    {
      id := [];
      for i := 0 to n
        invariant HexFrom(t, p, i) && |id| == i && forall k :: 0 <= k < i ==> id[k] == PairValue(t, p + 2 * k)
      {
        var hi, lo := HexValue(t[p + i * 2]), HexValue(t[p + i * 2 + 1]);
        if hi < 0 || lo < 0 {
          assert !IsHexPair(t, p + 2 * i);
          return false, id;
        }
        id := id + [16 * hi + lo];
      }
      return true, id;
    }

    /** `clog_span_join`. */
    method SpanJoin(t: string, rs: seq<nat>) returns (token: nat)
      requires Consistent() && IsId(rs, SPAN_BYTES)
      modifies this, slots
      ensures Consistent() && Pushed(View(), token) == Join(old(View()), t, rs)
    {
      if |t| < TEXT_LENGTH || depth >= MAX_DEPTH {
        return 0;
      }
      if t[2] != '-' || t[35] != '-' || t[52] != '-' {
        return 0;
      }
      var ok, trace := GetHex(t, 3, TRACE_BYTES);
      if !ok {
        return 0;
      }
      var parent;
      ok, parent := GetHex(t, 36, SPAN_BYTES);
      if !ok {
        return 0;
      }
      var flags;
      ok, flags := GetHex(t, 53, 1);
      if !ok {
        return 0;
      }
      var span := NewId(rs, SPAN_BYTES);
      token := PushSlot(Slot(trace, span, flags[0]));
    }

    /** An explicit context that is exported with no span open. */
    method SetAndExport(trace: seq<nat>, span: seq<nat>, buf: array<char>) returns (ok: bool)
      requires Consistent() && depth == 0 && IsId(trace, TRACE_BYTES) && IsId(span, SPAN_BYTES)
      requires buf != slots as object
      modifies this, buf
      ensures Consistent() && (ok <==> buf.Length >= 56 && !IsZero(trace))
      ensures ok ==> buf[..55] == "00-" + Hex(trace, 16) + "-" + Hex(span, 8) + "-00" && buf[55] == NUL
    {
      SetTraceContext(trace, span);
      SetIsCurrent(Set(trace, span), trace, span, Zeros(TRACE_BYTES), Zeros(SPAN_BYTES));
      ok := SpanExport(buf);
    }

    /** A header that is joined and exported again: the export is refused exactly for trace ids
        of zeros and short buffers, and otherwise repeats trace id and flags in lower case. */
    method JoinAndExport(t: string, rs: seq<nat>, buf: array<char>) returns (token: nat, ok: bool)
      requires Consistent() && IsId(rs, SPAN_BYTES) && buf != slots as object
      modifies this, slots, buf
      ensures Consistent() && Pushed(View(), token) == Join(old(View()), t, rs)
      ensures token != 0 <==> old(depth) < MAX_DEPTH && IsTraceParent(t)
      ensures token != 0 ==> (ok <==> buf.Length >= TEXT_LENGTH + 1 && !ZeroTrace(t))
      ensures token != 0 && ok ==> LowerFrom(buf[..TEXT_LENGTH], t, 3, TRACE_BYTES)
      ensures token != 0 && ok ==> LowerFrom(buf[..TEXT_LENGTH], t, 53, 1) && buf[TEXT_LENGTH] == NUL
    {
      JoinedIsExported(View(), t, rs);
      token := SpanJoin(t, rs);
      ok := SpanExport(buf);
    }
  }

  /** The text is determined by its parts. */
  lemma TextOfParts(t: string, s: Slot)
    requires s.Valid() && |t| > TEXT_LENGTH && t[0] == '0' && t[1] == '0' && t[2] == '-' && t[35] == '-' && t[52] == '-'
    requires Looks(t, 3, Hex(s.trace, TRACE_BYTES)) && Looks(t, 36, Hex(s.span, SPAN_BYTES)) &&
      Looks(t, 53, Hex([s.flags], 1))
    ensures t[..TEXT_LENGTH] == TraceParent(s)
  {
    var u := TraceParent(s);
    forall k | 0 <= k < TEXT_LENGTH ensures t[k] == u[k] {
      if 3 <= k < 35 {
        assert t[3 + (k - 3)] == Hex(s.trace, TRACE_BYTES)[k - 3];
      } else if 36 <= k < 52 {
        assert t[36 + (k - 36)] == Hex(s.span, SPAN_BYTES)[k - 36];
      } else if 53 <= k {
        assert t[53 + (k - 53)] == Hex([s.flags], 1)[k - 53];
      }
    }
  }
}
