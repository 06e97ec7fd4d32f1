/** `format_json_ex` and `format_otel_json`, writing into a caller's buffer. */
module JsonFormat {
  import opened CStrings
  import opened FastAscii
  import opened JsonText
  import opened JsonPrinter
  import opened JsonCut
  import opened JsonBadKey
  import opened JsonDocument
  import opened JsonNumbers
  import opened JsonRecord
  import JR = JsonReading
  import SC = SpanContext
  import SP = StringPacking
  import TE = TraceEnv
  import opened JsonChunks
  import opened JsonCursor

  // ---- identifiers ----

  /** `trace_id_hex` and `span_id_hex`. */
  method HexOfId(id: seq<nat>) returns (s: string)
    requires Bytes(id)
    ensures s == SC.Hex(id, |id|)
  {
    s := "";
    for i := 0 to |id|
      invariant s == SC.Hex(id, i)
    {
      s := s + [HexDigit(id[i] / 16), HexDigit(id[i] % 16)];
    }
  }

  // ---- parts of a line ----
  //
  // Each part is a run of appends.  It goes on with program k, or the line is finished and n is
  // the result.

  method StampPart(c: Cursor, r: Record, key: string, ghost goal: Outcome, ghost k: Prog) returns (go: bool)
    requires ValidRecord(r) && c.Toward(goal, StampChunks(r, key, k))
    modifies c, c.buf
    ensures if go then c.Toward(goal, k) && c.remaining > 0 else goal.Dropped?
  {
    ghost var p3 := AddRaw(NextText(key), AddRaw(LevelName(r.level), k));
    ghost var p2 := AddRaw(Pad6(r.usec), p3);
    ghost var p1 := AddRaw(".", p2);
    go := c.Emit(FirstText("timestamp"), goal, AddRaw(r.time, p1));
    if !go { return; }
    go := c.Emit(r.time, goal, p1);
    if !go { return; }
    go := c.Emit(".", goal, p2);
    if !go { return; }
    var usec := U32ToAPad6(r.usec);
    go := c.Emit(usec, goal, p3);
    if !go { return; }
    go := c.Emit(NextText(key), goal, AddRaw(LevelName(r.level), k));
    if !go { return; }
    go := c.Emit(LevelName(r.level), goal, k);
  }

  /** A raw chunk and the string behind it. */
  method TextPart(c: Cursor, open: string, s: string, closer: string, ghost goal: Outcome, ghost k: Prog)
      returns (go: bool, n: int)
    requires c.Toward(goal, AddRaw(open, StrSeg(s, closer, k)))
    modifies c, c.buf
    ensures if go then c.Toward(goal, k) && c.remaining > 0 else Returned(goal, c.buf, n)
  {
    n := -1;
    go := c.Emit(open, goal, StrSeg(s, closer, k));
    if !go { return; }
    go, n := c.EmitString(s, closer, goal, k);
  }

  method LinePart(c: Cursor, r: Record, closer: string, ghost goal: Outcome, ghost k: Prog) returns (go: bool, n: int)
    requires ValidRecord(r) && c.Toward(goal, LineChunks(r, closer, k))
    modifies c, c.buf
    ensures if go then c.Toward(goal, k) && c.remaining > 0 else Returned(goal, c.buf, n)
  {
    n := -1;
    ghost var p := AddRaw(MoreText("func"), StrSeg(OrEmpty(r.func), closer, k));
    go := c.Emit(NextPlain("line"), goal, AddRaw(SignedDecimal(r.line), p));
    if !go { return; }
    var line := I32ToA(r.line);
    go := c.Emit(line, goal, p);
    if !go { return; }
    go, n := TextPart(c, MoreText("func"), OrEmpty(r.func), closer, goal, k);
  }

  method ThreadPart(c: Cursor, r: Record, closer: string, ghost goal: Outcome, ghost k: Prog) returns (go: bool, n: int)
    requires ValidRecord(r) && c.Toward(goal, ThreadChunks(r, closer, k))
    modifies c, c.buf
    ensures if go then c.Toward(goal, k) && c.remaining > 0 else Returned(goal, c.buf, n)
  {
    n := -1;
    ghost var p2 := AddRaw(MoreText("tag"), StrSeg(OrEmpty(r.tag), closer, k));
    ghost var p1 := AddRaw(MorePlain("pid"), AddRaw(SignedDecimal(r.pid), p2));
    go := c.Emit(NextPlain("thread"), goal, AddRaw(SignedDecimal(r.tid), p1));
    if !go { return; }
    var tid := U32ToA(r.tid);
    go := c.Emit(tid, goal, p1);
    if !go { return; }
    go := c.Emit(MorePlain("pid"), goal, AddRaw(SignedDecimal(r.pid), p2));
    if !go { return; }
    var pid := U32ToA(r.pid);
    go := c.Emit(pid, goal, p2);
    if !go { return; }
    go, n := TextPart(c, MoreText("tag"), OrEmpty(r.tag), closer, goal, k);
  }

  method SourcePart(c: Cursor, r: Record, closer: string, ghost goal: Outcome, ghost k: Prog) returns (go: bool, n: int)
    requires ValidRecord(r) && c.Toward(goal, SourceChunks(r, closer, k))
    modifies c, c.buf
    ensures if go then c.Toward(goal, k) && c.remaining > 0 else Returned(goal, c.buf, n)
  {
    ghost var p1 := ThreadChunks(r, closer, k);
    go, n := TextPart(c, NextText("file"), OrEmpty(r.file), closer, goal, LineChunks(r, closer, p1));
    if !go { return; }
    go, n := LinePart(c, r, closer, goal, p1);
    if !go { return; }
    go, n := ThreadPart(c, r, closer, goal, k);
  }

  method IdPart(c: Cursor, key: string, id: seq<nat>, ghost goal: Outcome, ghost k: Prog) returns (go: bool)
    requires Bytes(id) && c.remaining > 0 && c.Toward(goal, IdChunk(key, id, k))
    modifies c, c.buf
    ensures if go then c.Toward(goal, k) && c.remaining > 0 else goal.Dropped?
  {
    var zero := SC.AllZero(id);
    if zero { return true; }
    go := c.Emit(NextText(key), goal, AddRaw(SC.Hex(id, |id|), k));
    if !go { return; }
    var hex := HexOfId(id);
    go := c.Emit(hex, goal, k);
  }

  method OtelIdPart(c: Cursor, key: string, id: seq<nat>, ghost goal: Outcome, ghost k: Prog) returns (go: bool)
    requires Bytes(id) && c.remaining > 0 && c.Toward(goal, OtelIdChunk(key, id, k))
    modifies c, c.buf
    ensures if go then c.Toward(goal, k) && c.remaining > 0 else goal.Dropped?
  {
    var zero := SC.AllZero(id);
    if zero { return true; }
    go := c.Emit(MoreText(key), goal, AddRaw(SC.Hex(id, |id|), AddRaw("\"", k)));
    if !go { return; }
    var hex := HexOfId(id);
    go := c.Emit(hex, goal, AddRaw("\"", k));
    if !go { return; }
    go := c.Emit("\"", goal, k);
  }

  // ---- attributes ----

  lemma SegIsRaw(a: string, s: string, closer: string, p: Prog)
    ensures Seg(a, s, closer, p) == AddRaw(a, StrSeg(s, closer, p))
  {
    RawStr(a, s, closer, p);
  }

  method KvScalar(v: KvValue) returns (s: string)
    requires !v.KvStr? && ValidKv(Kv(SP.Absent, v))
    ensures s == Render(KvSlot(v).v)
  {
    match v {
      case KvInt(i) => s := I64ToA(i);
      case KvUint(u) => s := U64ToA(u);
      case KvFloat(text) => s := text;
      case KvBool(b) => s := if b then "true" else "false";
    }
  }

  method KvValuePart(c: Cursor, v: KvValue, closer: string, ghost goal: Outcome, ghost k: Prog)
      returns (go: bool, n: int)
    requires ValidKv(Kv(SP.Absent, v)) && c.remaining > 0 && c.Toward(goal, SlotProg(KvSlot(v), closer, k))
    modifies c, c.buf
    ensures if go then c.Toward(goal, k) && c.remaining > 0 else Returned(goal, c.buf, n)
  {
    n := -1;
    if v.KvStr? {
      SegIsRaw("\"", OrEmpty(v.str), closer, AddRaw("\"", k));
      go, n := TextPart(c, "\"", OrEmpty(v.str), closer, goal, AddRaw("\"", k));
      if !go { return; }
      n := -1;
      go := c.Emit("\"", goal, k);
    } else {
      var s := KvScalar(v);
      go := c.Emit(s, goal, k);
    }
  }

  /** `append_json_kv` for an attribute with a key. */
  method KvPart(c: Cursor, key: string, v: KvValue, closer: string, ghost goal: Outcome, ghost k: Prog)
      returns (go: bool, n: int)
    requires ValidKv(Kv(SP.Absent, v)) && c.remaining > 0
    requires c.Toward(goal, KeyProg(true, false, key, closer, SlotProg(KvSlot(v), closer, k)))
    modifies c, c.buf
    ensures if go then c.Toward(goal, k) && c.remaining > 0 else Returned(goal, c.buf, n)
  {
    ghost var p := SlotProg(KvSlot(v), closer, k);
    SegIsRaw(",\"", key, closer, AddRaw("\":", p));
    go, n := TextPart(c, ",\"", key, closer, goal, AddRaw("\":", p));
    if !go { return; }
    n := -1;
    go := c.Emit("\":", goal, p);
    if !go { return; }
    go, n := KvValuePart(c, v, closer, goal, k);
  }

  method KvsPart(c: Cursor, kvs: seq<Kv>, closer: string, ghost goal: Outcome, ghost k: Prog) returns (go: bool, n: int)
    requires forall i :: 0 <= i < |kvs| ==> ValidKv(kvs[i])
    requires c.remaining > 0 && c.Toward(goal, FieldsProg(false, KvFields(kvs, 0), closer, k))
    modifies c, c.buf
    ensures if go then c.Toward(goal, k) && c.remaining > 0 else Returned(goal, c.buf, n)
  {
    for i := 0 to |kvs|
      invariant c.remaining > 0 && c.Toward(goal, FieldsProg(false, KvFields(kvs, i), closer, k))
    {
      if kvs[i].key.Present? {
        go, n := KvPart(c, kvs[i].key.str, kvs[i].value, closer, goal, FieldsProg(false, KvFields(kvs, i +
          1), closer, k));
        if !go { return; }
      }
    }
    return true, 0;
  }

  /** The closing brace or braces. */
  method EndPart(c: Cursor, close: string, ghost goal: Outcome) returns (n: int)
    requires c.Toward(goal, Last(close))
    modifies c, c.buf
    ensures Returned(goal, c.buf, n)
  {
    var go := c.Emit(close, goal, Last(""));
    return if go then c.out else -1;
  }

  // ---- the renderers ----

  /** No attribute key holds a control byte without a short escape; `loose` admits one as
      the last byte. */
  predicate TameAttributes(loose: bool, kvs: seq<Kv>)
  {
    forall i :: 0 <= i < |kvs| ==> kvs[i].key.Present? ==> Tame(loose, kvs[i].key.str)
  }

  /** All floating point attributes with a key are finite. */
  predicate FiniteAttributes(kvs: seq<Kv>)
  {
    forall i :: 0 <= i < |kvs| ==> kvs[i].key.Present? && kvs[i].value.KvFloat? ==> IsNumber(kvs[i].value.text)
  }

  lemma KvIsNumber(kv: Kv)
    requires ValidKv(kv)
    ensures FloatJson(SlotJson(KvSlot(kv.value)))
    ensures ValidJson(SlotJson(KvSlot(kv.value))) <==> (kv.value.KvFloat? ==> IsNumber(kv.value.text))
  {
    match kv.value {
      case KvInt(i) => IntIsNumber(i);
      case KvUint(u) => IntIsNumber(u);
      case _ =>
    }
  }

  lemma {:induction false} FiniteFrom(kvs: seq<Kv>, i: nat)
    requires i <= |kvs| && forall k :: 0 <= k < |kvs| ==> ValidKv(kvs[k])
    ensures FloatMembers(MembersOf(KvFields(kvs, i)))
    ensures ValidMembers(MembersOf(KvFields(kvs, i))) <==>
            forall k :: i <= k < |kvs| ==> kvs[k].key.Present? && kvs[k].value.KvFloat? ==> IsNumber(kvs[k].value.text)
    decreases |kvs| - i
  {
    if i == |kvs| {
    } else {
      FiniteFrom(kvs, i + 1);
      KvIsNumber(kvs[i]);
    }
  }

  /** A number that is written as an integer or a string adds no condition. */
  lemma FiniteFixed(key: string, v: Slot, rest: Fields)
    requires ValidJson(SlotJson(v)) && FloatJson(SlotJson(v))
    ensures ValidMembers(MembersOf(FCons(false, key, v, rest))) <==> ValidMembers(MembersOf(rest))
    ensures FloatMembers(MembersOf(FCons(false, key, v, rest))) <==> FloatMembers(MembersOf(rest))
  {
  }

  lemma FiniteInt(n: int)
    ensures ValidJson(JInt(n)) && FloatJson(JInt(n))
  {
    IntIsNumber(n);
  }

  /** Adding members without floating point changes neither condition. */
  ghost predicate SameNumbers(a: Fields, b: Fields)
  {
    (ValidMembers(MembersOf(a)) <==> ValidMembers(MembersOf(b))) &&
    (FloatMembers(MembersOf(a)) <==> FloatMembers(MembersOf(b)))
  }

  lemma FiniteSource(r: Record, rest: Fields)
    ensures SameNumbers(SourceFields(r, rest), rest)
  {
    FiniteInt(r.pid);
    FiniteInt(r.tid);
    FiniteInt(r.line);
    var tag := FCons(false, "tag", Text(OrEmpty(r.tag)), rest);
    var pid := FCons(false, "pid", Fixed(JInt(r.pid)), tag);
    var thread := FCons(false, "thread", Fixed(JInt(r.tid)), pid);
    var func := FCons(false, "func", Text(OrEmpty(r.func)), thread);
    var line := FCons(false, "line", Fixed(JInt(r.line)), func);
    FiniteFixed("tag", tag.value, rest);
    FiniteFixed("pid", pid.value, tag);
    FiniteFixed("thread", thread.value, pid);
    FiniteFixed("func", func.value, thread);
    FiniteFixed("line", line.value, func);
    FiniteFixed("file", Text(OrEmpty(r.file)), line);
  }

  lemma FiniteId(key: string, id: seq<nat>, rest: Fields)
    requires Bytes(id)
    ensures SameNumbers(IdField(key, id, rest), rest)
  {
    if !SC.IsZero(id) {
      FiniteFixed(key, Fixed(JStr(SC.Hex(id, |id|))), rest);
    }
  }

  lemma FiniteThree(k1: string, v1: Slot, k2: string, v2: Slot, k3: string, v3: Slot, rest: Fields)
    requires forall v :: v in {v1, v2, v3} ==> ValidJson(SlotJson(v)) && FloatJson(SlotJson(v))
    ensures SameNumbers(FCons(false, k1, v1, FCons(false, k2, v2, FCons(false, k3, v3, rest))), rest)
  {
    FiniteFixed(k3, v3, rest);
    FiniteFixed(k2, v2, FCons(false, k3, v3, rest));
    FiniteFixed(k1, v1, FCons(false, k2, v2, FCons(false, k3, v3, rest)));
  }

  lemma FiniteJson(r: Record)
    requires ValidRecord(r)
    ensures FloatMembers(DocMembers(JsonDoc(r)))
    ensures ValidMembers(DocMembers(JsonDoc(r))) <==> FiniteAttributes(r.kvs)
  {
    FiniteFrom(r.kvs, 0);
    var message := FCons(false, "message", Text(OrEmpty(r.message)), KvFields(r.kvs, 0));
    FiniteFixed("message", message.value, KvFields(r.kvs, 0));
    FiniteId("span_id", r.spanId, message);
    FiniteId("trace_id", r.traceId, IdField("span_id", r.spanId, message));
    FiniteSource(r, TraceFields(r, message));
    FiniteThree("timestamp", Fixed(JStr(Stamp(r))), "level", Fixed(JStr(LevelName(r.level))),
      "module", Text(OrEmpty(r.moduleName)), SourceFields(r, TraceFields(r, message)));
  }

  lemma OuterIsFinite(r: Record)
    requires ValidRecord(r)
    ensures ValidMembers(MembersOf(OtelOuter(r))) && FloatMembers(MembersOf(OtelOuter(r)))
  {
    var body := FCons(false, "body", Text(OrEmpty(r.message)), FNil);
    FiniteFixed("body", body.value, FNil);
    FiniteId("span_id", r.spanId, body);
    FiniteId("trace_id", r.traceId, IdField("span_id", r.spanId, body));
    FiniteInt(SeverityNumber(r.level));
    FiniteThree("timestamp", Fixed(JStr(Stamp(r))), "severity", Fixed(JStr(LevelName(r.level))),
      "severity_number", Fixed(JInt(SeverityNumber(r.level))), TraceFields(r, body));
  }

  lemma {:induction false} AppendFinite(a: Members, b: Members)
    requires ValidMembers(a) && FloatMembers(a)
    ensures ValidMembers(Append(a, b)) <==> ValidMembers(b)
    ensures FloatMembers(Append(a, b)) <==> FloatMembers(b)
  {
    if a.JNil? {
    } else {
      AppendFinite(a.rest, b);
    }
  }

  lemma FiniteOtel(r: Record)
    requires ValidRecord(r)
    ensures FloatMembers(DocMembers(OtelDoc(r)))
    ensures ValidMembers(DocMembers(OtelDoc(r))) <==> FiniteAttributes(r.kvs)
  {
    FiniteFrom(r.kvs, 0);
    var inner := FCons(false, "module", Text(OrEmpty(r.moduleName)), SourceFields(r, KvFields(r.kvs, 0)));
    FiniteSource(r, KvFields(r.kvs, 0));
    FiniteFixed("module", inner.value, SourceFields(r, KvFields(r.kvs, 0)));
    OuterIsFinite(r);
    var last := JCons("attributes", JObj(MembersOf(inner)), JNil);
    assert ValidMembers(last) <==> ValidMembers(MembersOf(inner));
    assert FloatMembers(last) <==> FloatMembers(MembersOf(inner));
    AppendFinite(MembersOf(OtelOuter(r)), last);
  }

  lemma {:induction false} TameFrom(loose: bool, kvs: seq<Kv>, i: nat)
    requires i <= |kvs|
    ensures TameKeys(loose, KvFields(kvs, i)) <==>
            forall k :: i <= k < |kvs| ==> kvs[k].key.Present? ==> Tame(loose, kvs[k].key.str)
    decreases |kvs| - i
  {
    if i == |kvs| {
    } else {
      TameFrom(loose, kvs, i + 1);
    }
  }

  lemma TameFixed(loose: bool, key: string, v: Slot, rest: Fields)
    ensures TameKeys(loose, FCons(false, key, v, rest)) <==> TameKeys(loose, rest)
  {
  }

  lemma TameSource(loose: bool, r: Record, rest: Fields)
    ensures TameKeys(loose, SourceFields(r, rest)) <==> TameKeys(loose, rest)
  {
    var tag := FCons(false, "tag", Text(OrEmpty(r.tag)), rest);
    var pid := FCons(false, "pid", Fixed(JInt(r.pid)), tag);
    var thread := FCons(false, "thread", Fixed(JInt(r.tid)), pid);
    var func := FCons(false, "func", Text(OrEmpty(r.func)), thread);
    var line := FCons(false, "line", Fixed(JInt(r.line)), func);
    TameFixed(loose, "tag", tag.value, rest);
    TameFixed(loose, "pid", pid.value, tag);
    TameFixed(loose, "thread", thread.value, pid);
    TameFixed(loose, "func", func.value, thread);
    TameFixed(loose, "line", line.value, func);
    TameFixed(loose, "file", Text(OrEmpty(r.file)), line);
  }

  lemma TameId(loose: bool, key: string, id: seq<nat>, rest: Fields)
    requires Bytes(id)
    ensures TameKeys(loose, IdField(key, id, rest)) <==> TameKeys(loose, rest)
  {
    if !SC.IsZero(id) {
      TameFixed(loose, key, Fixed(JStr(SC.Hex(id, |id|))), rest);
    }
  }

  lemma TameThree(loose: bool, k1: string, v1: Slot, k2: string, v2: Slot, k3: string, v3: Slot, rest: Fields)
    ensures TameKeys(loose, FCons(false, k1, v1, FCons(false, k2, v2, FCons(false, k3, v3, rest)))) <==>
      TameKeys(loose, rest)
  {
    TameFixed(loose, k3, v3, rest);
    TameFixed(loose, k2, v2, FCons(false, k3, v3, rest));
    TameFixed(loose, k1, v1, FCons(false, k2, v2, FCons(false, k3, v3, rest)));
  }

  lemma TameJson(loose: bool, r: Record)
    requires ValidRecord(r)
    ensures TameDoc(loose, JsonDoc(r)) <==> TameAttributes(loose, r.kvs)
  {
    TameFrom(loose, r.kvs, 0);
    var message := FCons(false, "message", Text(OrEmpty(r.message)), KvFields(r.kvs, 0));
    TameFixed(loose, "message", message.value, KvFields(r.kvs, 0));
    TameId(loose, "span_id", r.spanId, message);
    TameId(loose, "trace_id", r.traceId, IdField("span_id", r.spanId, message));
    TameSource(loose, r, TraceFields(r, message));
    TameThree(loose, "timestamp", Fixed(JStr(Stamp(r))), "level", Fixed(JStr(LevelName(r.level))),
      "module", Text(OrEmpty(r.moduleName)), SourceFields(r, TraceFields(r, message)));
  }

  lemma TameOtel(loose: bool, r: Record)
    requires ValidRecord(r)
    ensures TameDoc(loose, OtelDoc(r)) <==> TameAttributes(loose, r.kvs)
  {
    TameFrom(loose, r.kvs, 0);
    TameSource(loose, r, KvFields(r.kvs, 0));
    TameFixed(loose, "module", Text(OrEmpty(r.moduleName)), SourceFields(r, KvFields(r.kvs, 0)));
    var body := FCons(false, "body", Text(OrEmpty(r.message)), FNil);
    TameFixed(loose, "body", body.value, FNil);
    TameId(loose, "span_id", r.spanId, body);
    TameId(loose, "trace_id", r.traceId, IdField("span_id", r.spanId, body));
    TameThree(loose, "timestamp", Fixed(JStr(Stamp(r))), "severity", Fixed(JStr(LevelName(r.level))),
      "severity_number", Fixed(JInt(SeverityNumber(r.level))), TraceFields(r, body));
  }

  /** What a renderer leaves in the buffer: nothing, or a NUL-terminated JSON object with the
      first members of document d, of which only the last string value may be cut. */
  ghost predicate GoodLine(d: Doc, buf: array<char>, n: int)
    reads buf
  {
    n == -1 ||
    (0 <= n < buf.Length && buf[n] == NUL &&
     exists c :: IsCut(false, c, DocMembers(d)) && Parse(buf[..n]) == Good(JObj(c), n))
  }

  /** With enough room parsing the line gives every member back. */
  ghost predicate WholeLine(d: Doc, buf: array<char>, n: int)
    reads buf
  {
    var text := Render(JObj(DocMembers(d)));
    |text| < buf.Length ==> n == |text| && buf[..n] == text && Parse(buf[..n]) == Good(JObj(DocMembers(d)), n)
  }

  lemma LineIsGood(d: Doc, buf: array<char>, n: int)
    requires ValidDoc(d) && ValidMembers(DocMembers(d)) && Returned(Exec(DocProg(d), buf.Length), buf, n)
    ensures TameDoc(false, d) ==> GoodLine(d, buf, n)
    ensures WholeLine(d, buf, n)
  {
    if TameDoc(false, d) && n != -1 {
      var c := LineParses(false, d, buf.Length);
    }
    if |Render(JObj(DocMembers(d)))| < buf.Length {
      RoomyLineIsWhole(d, buf.Length);
    }
  }

  /** The records whose members the renderers print as they are. */
  predicate Readable(r: Record)
  {
    PlainText(r.time) && FiniteAttributes(r.kvs)
  }

  method JsonTailPart(c: Cursor, r: Record, ghost goal: Outcome) returns (n: int)
    requires ValidRecord(r) && c.remaining > 0 && c.Toward(goal, JsonTail(r))
    modifies c, c.buf
    ensures Returned(goal, c.buf, n)
  {
    var closer := "\"" + "}";
    ghost var p2 := FieldsProg(false, KvFields(r.kvs, 0), closer, Last("}"));
    ghost var p1 := MessageChunks(r, closer, p2);
    var go := IdPart(c, "trace_id", r.traceId, goal, IdChunk("span_id", r.spanId, p1));
    if !go { return -1; }
    go := IdPart(c, "span_id", r.spanId, goal, p1);
    if !go { return -1; }
    go, n := TextPart(c, NextText("message"), OrEmpty(r.message), closer, goal, AddRaw("\"", p2));
    if !go { return; }
    go := c.Emit("\"", goal, p2);
    if !go { return -1; }
    go, n := KvsPart(c, r.kvs, closer, goal, Last("}"));
    if !go { return; }
    n := EndPart(c, "}", goal);
  }

  /** `format_json_ex`. */
  method FormatJson(r: Record, buf: array<char>) returns (n: int)
    requires ValidRecord(r)
    modifies buf
    ensures Returned(Exec(JsonLineChunks(r), buf.Length), buf, n)
    ensures Readable(r) && TameAttributes(false, r.kvs) ==> GoodLine(JsonDoc(r), buf, n)
    ensures Readable(r) ==> WholeLine(JsonDoc(r), buf, n)
    ensures Readable(r) && |Full(JsonLineChunks(r))| < buf.Length ==> 0 <= n < buf.Length && JR.JsonReads(buf[..n], r)
  {
    n := WriteJson(r, buf);
    if Readable(r) {
      JsonChunksPrint(r);
      FiniteJson(r);
      TameJson(false, r);
      LineIsGood(JsonDoc(r), buf, n);
      FullDoc(JsonDoc(r));
      JR.JsonDocTells(r);
    }
  }

  method WriteJson(r: Record, buf: array<char>) returns (n: int)
    requires ValidRecord(r)
    modifies buf
    ensures Returned(Exec(JsonLineChunks(r), buf.Length), buf, n)
  {
    ghost var goal := Exec(JsonLineChunks(r), buf.Length);
    var closer := "\"" + "}";
    ghost var p1 := SourceChunks(r, closer, JsonTail(r));
    var c := new Cursor(buf, JsonLineChunks(r));
    var go := StampPart(c, r, "level", goal, AddRaw(NextText("module"), StrSeg(OrEmpty(r.moduleName), closer, p1)));
    if !go { return -1; }
    go, n := TextPart(c, NextText("module"), OrEmpty(r.moduleName), closer, goal, p1);
    if !go { return; }
    go, n := SourcePart(c, r, closer, goal, JsonTail(r));
    if !go { return; }
    n := JsonTailPart(c, r, goal);
  }

  method AttributesPart(c: Cursor, r: Record, ghost goal: Outcome) returns (n: int)
    requires ValidRecord(r) && c.remaining > 0 && c.Toward(goal, AttributeChunks(r))
    modifies c, c.buf
    ensures Returned(goal, c.buf, n)
  {
    var closer := "\"" + "}}";
    ghost var p3 := FieldsProg(false, KvFields(r.kvs, 0), closer, Last("}}"));
    ghost var p2 := SourceChunks(r, closer, AddRaw("\"", p3));
    ghost var p1 := AddRaw("\"" + "module" + "\":\"", StrSeg(OrEmpty(r.moduleName), closer, p2));
    var go := c.Emit(MorePlain("attributes") + "{", goal, p1);
    if !go { return -1; }
    go, n := TextPart(c, "\"" + "module" + "\":\"", OrEmpty(r.moduleName), closer, goal, p2);
    if !go { return; }
    go, n := SourcePart(c, r, closer, goal, AddRaw("\"", p3));
    if !go { return; }
    go := c.Emit("\"", goal, p3);
    if !go { return -1; }
    go, n := KvsPart(c, r.kvs, closer, goal, Last("}}"));
    if !go { return; }
    n := EndPart(c, "}}", goal);
  }

  method OtelBodyPart(c: Cursor, r: Record, ghost goal: Outcome) returns (n: int)
    requires ValidRecord(r) && c.remaining > 0 && c.Toward(goal, OtelBody(r))
    modifies c, c.buf
    ensures Returned(goal, c.buf, n)
  {
    var closer := "\"" + "}";
    ghost var p2 := AddRaw("\"", AttributeChunks(r));
    ghost var p1 := AddRaw(MoreText("body"), StrSeg(OrEmpty(r.message), closer, p2));
    var go := OtelIdPart(c, "trace_id", r.traceId, goal, OtelIdChunk("span_id", r.spanId, p1));
    if !go { return -1; }
    go := OtelIdPart(c, "span_id", r.spanId, goal, p1);
    if !go { return -1; }
    go, n := TextPart(c, MoreText("body"), OrEmpty(r.message), closer, goal, p2);
    if !go { return; }
    go := c.Emit("\"", goal, AttributeChunks(r));
    if !go { return -1; }
    n := AttributesPart(c, r, goal);
  }

  method SeverityPart(c: Cursor, r: Record, ghost goal: Outcome) returns (go: bool)
    requires ValidRecord(r) && c.Toward(goal, SeverityChunks(r))
    modifies c, c.buf
    ensures if go then c.Toward(goal, OtelBody(r)) && c.remaining > 0 else goal.Dropped?
  {
    go := c.Emit(NextPlain("severity_number"), goal, AddRaw(SignedDecimal(SeverityNumber(r.level)), OtelBody(r)));
    if !go { return; }
    var number := I32ToA(SeverityNumber(r.level));
    go := c.Emit(number, goal, OtelBody(r));
  }

  method WriteOtel(r: Record, buf: array<char>) returns (n: int)
    requires ValidRecord(r)
    modifies buf
    ensures Returned(Exec(OtelLineChunks(r), buf.Length), buf, n)
  {
    ghost var goal := Exec(OtelLineChunks(r), buf.Length);
    var c := new Cursor(buf, OtelLineChunks(r));
    var go := StampPart(c, r, "severity", goal, SeverityChunks(r));
    if !go { return -1; }
    go := SeverityPart(c, r, goal);
    if !go { return -1; }
    n := OtelBodyPart(c, r, goal);
  }

  /** The record with the trace context of the environment. */
  function WithEnv(r: Record, env: SP.Text): (e: Record)
    requires ValidRecord(r)
    ensures ValidRecord(e) && e.kvs == r.kvs && e.time == r.time
  {
    var ids := TE.FromEnv(env, TE.Ids(r.traceId, r.spanId));
    r.(traceId := ids.trace, spanId := ids.span)
  }

  method TakeEnv(r: Record, env: SP.Text) returns (e: Record)
    requires ValidRecord(r)
    ensures e == WithEnv(r, env)
  {
    e := r;
    if env.Present? {
      var trace := new nat[16](i requires 0 <= i < 16 => r.traceId[i]);
      var span := new nat[8](i requires 0 <= i < 8 => r.spanId[i]);
      assert trace[..] == r.traceId && span[..] == r.spanId;
      TE.ParseTraceParent(env.str, trace, span);
      e := r.(traceId := trace[..], spanId := span[..]);
    }
  }

  /** `format_otel_json`; `env` is the environment variable TRACEPARENT. */
  method FormatOtel(r: Record, env: SP.Text, buf: array<char>) returns (n: int)
    requires ValidRecord(r)
    modifies buf
    ensures Returned(Exec(OtelLineChunks(WithEnv(r, env)), buf.Length), buf, n)
    ensures Readable(r) && TameAttributes(false, r.kvs) ==> GoodLine(OtelDoc(WithEnv(r, env)), buf, n)
    ensures Readable(r) ==> WholeLine(OtelDoc(WithEnv(r, env)), buf, n)
    ensures Readable(r) && |Full(OtelLineChunks(WithEnv(r, env)))| < buf.Length ==>
      var ids := TE.FromEnv(env, TE.Ids(r.traceId, r.spanId));
      0 <= n < buf.Length && JR.OtelReads(buf[..n], r.(traceId := ids.trace, spanId := ids.span))
  {
    var e := TakeEnv(r, env);
    n := WriteOtel(e, buf);
    if Readable(r) {
      OtelChunksPrint(e);
      FiniteOtel(e);
      TameOtel(false, e);
      LineIsGood(OtelDoc(e), buf, n);
      FullDoc(OtelDoc(e));
      JR.OtelDocTells(e);
    }
  }

  /** With a plain time text, a line is well formed for every buffer size exactly when no attribute
      key holds a control byte without a short escape before its last byte and no floating point
      attribute is infinite or NaN. */
  lemma JsonWellFormedIff(r: Record)
    requires ValidRecord(r) && PlainText(r.time)
    ensures AlwaysWellFormed(JsonLineChunks(r)) <==> TameAttributes(true, r.kvs) && FiniteAttributes(r.kvs)
  {
    JsonChunksPrint(r);
    FiniteJson(r);
    TameJson(true, r);
    WellFormedIff(JsonDoc(r));
  }

  /** The same for the OTel rendering. */
  lemma OtelWellFormedIff(r: Record)
    requires ValidRecord(r) && PlainText(r.time)
    ensures AlwaysWellFormed(OtelLineChunks(r)) <==> TameAttributes(true, r.kvs) && FiniteAttributes(r.kvs)
  {
    OtelChunksPrint(r);
    FiniteOtel(r);
    TameOtel(true, r);
    WellFormedIff(OtelDoc(r));
  }
}
