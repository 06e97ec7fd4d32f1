/** The chunks in which the renderers write a record, and that they print its members. */
module JsonChunks {
  import opened FastAscii
  import opened JsonText
  import opened JsonPrinter
  import opened JsonDocument
  import opened JsonRecord
  import SC = SpanContext

  // The literals of the renderers: what closes a member and opens the next one.
  function FirstText(key: string): string { "{\"" + key + "\":\"" }
  function NextText(key: string): string { "\",\"" + key + "\":\"" }
  function NextPlain(key: string): string { "\",\"" + key + "\":" }
  function MoreText(key: string): string { ",\"" + key + "\":\"" }
  function MorePlain(key: string): string { ",\"" + key + "\":" }

  function StrSeg(s: string, closer: string, p: Prog): Prog { Seg("", s, closer, p) }

  function FileChunks(r: Record, closer: string, k: Prog): Prog
  {
    AddRaw(NextText("file"), StrSeg(OrEmpty(r.file), closer, k))
  }

  function LineChunks(r: Record, closer: string, k: Prog): Prog
  {
    AddRaw(NextPlain("line"), AddRaw(SignedDecimal(r.line), AddRaw(MoreText("func"), StrSeg(OrEmpty(r.func), closer,
      k))))
  }

  function ThreadChunks(r: Record, closer: string, k: Prog): Prog
  {
    AddRaw(NextPlain("thread"), AddRaw(SignedDecimal(r.tid), AddRaw(MorePlain("pid"), AddRaw(SignedDecimal(r.pid),
    AddRaw(MoreText("tag"), StrSeg(OrEmpty(r.tag), closer, k))))))
  }

  function SourceChunks(r: Record, closer: string, k: Prog): Prog
  {
    FileChunks(r, closer, LineChunks(r, closer, ThreadChunks(r, closer, k)))
  }

  function IdChunk(key: string, id: seq<nat>, p: Prog): Prog
    requires Bytes(id)
  {
    if SC.IsZero(id) then p else AddRaw(NextText(key), AddRaw(SC.Hex(id, |id|), p))
  }

  function MessageChunks(r: Record, closer: string, k: Prog): Prog
  {
    AddRaw(NextText("message"), StrSeg(OrEmpty(r.message), closer, AddRaw("\"", k)))
  }

  function JsonTail(r: Record): Prog
    requires ValidRecord(r)
  {
    IdChunk("trace_id", r.traceId, IdChunk("span_id", r.spanId,
      MessageChunks(r, "\"" + "}", FieldsProg(false, KvFields(r.kvs, 0), "\"" + "}", Last("}")))))
  }

  function StampChunks(r: Record, key: string, p: Prog): Prog
    requires ValidRecord(r)
  {
    AddRaw(FirstText("timestamp"), AddRaw(r.time, AddRaw(".", AddRaw(Pad6(r.usec),
    AddRaw(NextText(key), AddRaw(LevelName(r.level), p))))))
  }

  function ModuleChunks(r: Record): Prog
    requires ValidRecord(r)
  {
    AddRaw(NextText("module"), StrSeg(OrEmpty(r.moduleName), "\"" + "}", SourceChunks(r, "\"" + "}", JsonTail(r))))
  }

  function JsonLineChunks(r: Record): Prog
    requires ValidRecord(r)
  {
    StampChunks(r, "level", ModuleChunks(r))
  }

  function OtelIdChunk(key: string, id: seq<nat>, p: Prog): Prog
    requires Bytes(id)
  {
    if SC.IsZero(id) then p else AddRaw(MoreText(key), AddRaw(SC.Hex(id, |id|), AddRaw("\"", p)))
  }

  function AttributeChunks(r: Record): Prog
  {
    AddRaw(MorePlain("attributes") + "{", AddRaw("\"" + "module" + "\":\"",
    StrSeg(OrEmpty(r.moduleName), "\"" + "}}",
    SourceChunks(r, "\"" + "}}", AddRaw("\"", FieldsProg(false, KvFields(r.kvs, 0), "\"" + "}}", Last("}}")))))))
  }

  function OtelBody(r: Record): Prog
    requires ValidRecord(r)
  {
    OtelIdChunk("trace_id", r.traceId, OtelIdChunk("span_id", r.spanId,
      AddRaw(MoreText("body"), StrSeg(OrEmpty(r.message), "\"" + "}", AddRaw("\"", AttributeChunks(r))))))
  }

  function SeverityChunks(r: Record): Prog
    requires ValidRecord(r)
  {
    AddRaw(NextPlain("severity_number"), AddRaw(SignedDecimal(SeverityNumber(r.level)), OtelBody(r)))
  }

  function OtelLineChunks(r: Record): Prog
    requires ValidRecord(r)
  {
    StampChunks(r, "severity", SeverityChunks(r))
  }

  // ---- one member ----

  lemma RawRaw(a: string, b: string, p: Prog)
    ensures AddRaw(a, AddRaw(b, p)) == AddRaw(a + b, p)
  {
    assert a + (b + p.text) == a + b + p.text;
  }

  lemma RawStr(a: string, s: string, closer: string, p: Prog)
    ensures AddRaw(a, StrSeg(s, closer, p)) == Seg(a, s, closer, p)
  {
    assert a + "" == a;
  }

  /** A string member. */
  lemma TextMember(key: string, s: string, closer: string, p: Prog)
    requires PlainText(key)
    ensures KeyProg(false, false, key, closer, SlotProg(Text(s), closer, p)) ==
            AddRaw(MoreText(key), StrSeg(s, closer, AddRaw("\"", p)))
  {
    PlainKey(false, key);
    RawStr(MoreText(key), s, closer, AddRaw("\"", p));
    assert ",\"" + key + "\":" + "\"" == ",\"" + key + "\":\"";
  }

  lemma NextIsMore(key: string, p: Prog)
    ensures AddRaw("\"", AddRaw(MoreText(key), p)) == AddRaw(NextText(key), p)
    ensures AddRaw("\"", AddRaw(MorePlain(key), p)) == AddRaw(NextPlain(key), p)
  {
    RawRaw("\"", MoreText(key), p);
    RawRaw("\"", MorePlain(key), p);
    assert "\"" + (",\"" + key + "\":\"") == "\",\"" + key + "\":\"";
    assert "\"" + (",\"" + key + "\":") == "\",\"" + key + "\":";
  }

  lemma PlainMember(key: string, v: Json, closer: string, p: Prog)
    requires PlainText(key)
    ensures KeyProg(false, false, key, closer, SlotProg(Fixed(v), closer, p)) ==
            AddRaw(MorePlain(key), AddRaw(Render(v), p))
  {
    PlainKey(false, key);
  }

  /** A string member whose value is written raw. */
  lemma RawTextMember(key: string, v: string, closer: string, p: Prog)
    requires PlainText(key) && PlainText(v)
    ensures KeyProg(false, false, key, closer, SlotProg(Fixed(JStr(v)), closer, p)) ==
            AddRaw(MoreText(key), AddRaw(v, AddRaw("\"", p)))
  {
    PlainMember(key, JStr(v), closer, p);
    PlainEscaped(v);
    RawRaw("\"" + v, "\"", p);
    RawRaw("\"", v, AddRaw("\"", p));
    RawRaw(MorePlain(key), "\"", AddRaw(v, AddRaw("\"", p)));
    assert MorePlain(key) + "\"" == MoreText(key);
  }

  // ---- runs of members ----

  /** The keys that the renderers write raw. */
  predicate KnownKey(key: string)
  {
    key == "timestamp" || key == "level" || key == "module" || key == "file" || key == "line" || key == "func" ||
    key == "thread" || key == "pid" || key == "tag" || key == "trace_id" || key == "span_id" || key == "message" ||
    key == "severity" || key == "severity_number" || key == "body" || key == "attributes"
  }

  lemma KnownIsPlain(key: string)
    requires KnownKey(key)
    ensures PlainText(key)
  {
  }

  lemma TextFirst(key: string, s: string, rest: Fields, closer: string, k: Prog)
    requires KnownKey(key)
    ensures FieldsProg(false, FCons(false, key, Text(s), rest), closer, k) ==
            AddRaw(MoreText(key), StrSeg(s, closer, AddRaw("\"", FieldsProg(false, rest, closer, k))))
  {
    KnownIsPlain(key);
    TextMember(key, s, closer, FieldsProg(false, rest, closer, k));
  }

  lemma PlainFirst(key: string, v: Json, rest: Fields, closer: string, k: Prog)
    requires KnownKey(key)
    ensures FieldsProg(false, FCons(false, key, Fixed(v), rest), closer, k) ==
            AddRaw(MorePlain(key), AddRaw(Render(v), FieldsProg(false, rest, closer, k)))
  {
    KnownIsPlain(key);
    PlainMember(key, v, closer, FieldsProg(false, rest, closer, k));
  }

  lemma TextNext(key: string, s: string, rest: Fields, closer: string, k: Prog)
    requires KnownKey(key)
    ensures AddRaw("\"", FieldsProg(false, FCons(false, key, Text(s), rest), closer, k)) ==
            AddRaw(NextText(key), StrSeg(s, closer, AddRaw("\"", FieldsProg(false, rest, closer, k))))
  {
    TextFirst(key, s, rest, closer, k);
    NextIsMore(key, StrSeg(s, closer, AddRaw("\"", FieldsProg(false, rest, closer, k))));
  }

  lemma PlainNext(key: string, v: Json, rest: Fields, closer: string, k: Prog)
    requires KnownKey(key)
    ensures AddRaw("\"", FieldsProg(false, FCons(false, key, Fixed(v), rest), closer, k)) ==
            AddRaw(NextPlain(key), AddRaw(Render(v), FieldsProg(false, rest, closer, k)))
  {
    PlainFirst(key, v, rest, closer, k);
    NextIsMore(key, AddRaw(Render(v), FieldsProg(false, rest, closer, k)));
  }

  lemma LineText(r: Record, rest: Fields, closer: string, k: Prog)
    ensures AddRaw("\"", FieldsProg(false, FCons(false, "line", Fixed(JInt(r.line)), FCons(false, "func",
      Text(OrEmpty(r.func)), rest)), closer, k))
            == LineChunks(r, closer, AddRaw("\"", FieldsProg(false, rest, closer, k)))
  {
    TextFirst("func", OrEmpty(r.func), rest, closer, k);
    PlainNext("line", JInt(r.line), FCons(false, "func", Text(OrEmpty(r.func)), rest), closer, k);
  }

  function ThreadFields(r: Record, rest: Fields): Fields
  {
    FCons(false, "thread", Fixed(JInt(r.tid)), FCons(false, "pid", Fixed(JInt(r.pid)), FCons(false, "tag",
      Text(OrEmpty(r.tag)), rest)))
  }

  lemma ThreadText(r: Record, rest: Fields, closer: string, k: Prog)
    ensures AddRaw("\"", FieldsProg(false, ThreadFields(r, rest), closer, k)) ==
            ThreadChunks(r, closer, AddRaw("\"", FieldsProg(false, rest, closer, k)))
  {
    var tag := FCons(false, "tag", Text(OrEmpty(r.tag)), rest);
    TextFirst("tag", OrEmpty(r.tag), rest, closer, k);
    PlainFirst("pid", JInt(r.pid), tag, closer, k);
    PlainNext("thread", JInt(r.tid), FCons(false, "pid", Fixed(JInt(r.pid)), tag), closer, k);
  }

  lemma SourceText(r: Record, rest: Fields, closer: string, k: Prog)
    ensures AddRaw("\"", FieldsProg(false, SourceFields(r, rest), closer, k)) ==
            SourceChunks(r, closer, AddRaw("\"", FieldsProg(false, rest, closer, k)))
  {
    ThreadText(r, rest, closer, k);
    var thread := ThreadFields(r, rest);
    LineText(r, thread, closer, k);
    TextNext("file", OrEmpty(r.file),
      FCons(false, "line", Fixed(JInt(r.line)), FCons(false, "func", Text(OrEmpty(r.func)), thread)), closer, k);
  }

  lemma RawTextFirst(key: string, v: string, rest: Fields, closer: string, k: Prog)
    requires KnownKey(key) && PlainText(v)
    ensures FieldsProg(false, FCons(false, key, Fixed(JStr(v)), rest), closer, k) ==
            AddRaw(MoreText(key), AddRaw(v, AddRaw("\"", FieldsProg(false, rest, closer, k))))
  {
    KnownIsPlain(key);
    RawTextMember(key, v, closer, FieldsProg(false, rest, closer, k));
  }

  lemma RawTextNext(key: string, v: string, rest: Fields, closer: string, k: Prog)
    requires KnownKey(key) && PlainText(v)
    ensures AddRaw("\"", FieldsProg(false, FCons(false, key, Fixed(JStr(v)), rest), closer, k)) ==
            AddRaw(NextText(key), AddRaw(v, AddRaw("\"", FieldsProg(false, rest, closer, k))))
  {
    RawTextFirst(key, v, rest, closer, k);
    NextIsMore(key, AddRaw(v, AddRaw("\"", FieldsProg(false, rest, closer, k))));
  }

  lemma IdNext(key: string, id: seq<nat>, rest: Fields, closer: string, k: Prog)
    requires KnownKey(key) && Bytes(id)
    ensures AddRaw("\"", FieldsProg(false, IdField(key, id, rest), closer, k)) ==
            IdChunk(key, id, AddRaw("\"", FieldsProg(false, rest, closer, k)))
  {
    if !SC.IsZero(id) {
      PlainHex(id, |id|);
      RawTextNext(key, SC.Hex(id, |id|), rest, closer, k);
    }
  }

  lemma IdFirst(key: string, id: seq<nat>, rest: Fields, closer: string, k: Prog)
    requires KnownKey(key) && Bytes(id)
    ensures FieldsProg(false, IdField(key, id, rest), closer, k) ==
      OtelIdChunk(key, id, FieldsProg(false, rest, closer, k))
  {
    if !SC.IsZero(id) {
      PlainHex(id, |id|);
      RawTextFirst(key, SC.Hex(id, |id|), rest, closer, k);
    }
  }

  lemma PlainLevel(level: nat)
    ensures PlainText(LevelName(level))
  {
  }

  lemma OpenStamp(r: Record, p: Prog)
    requires ValidRecord(r) && PlainText(r.time)
    ensures AddRaw("{", AddRaw(KeyText(true, "timestamp"), AddRaw(Render(JStr(Stamp(r))), p))) ==
            AddRaw(FirstText("timestamp"), AddRaw(r.time, AddRaw(".", AddRaw(Pad6(r.usec), AddRaw("\"", p)))))
  {
    PlainStamp(r);
    PlainEscaped(Stamp(r));
    PlainKey(true, "timestamp");
    StampRaw(r.time, Pad6(r.usec), p);
    var q := AddRaw(r.time, AddRaw(".", AddRaw(Pad6(r.usec), AddRaw("\"", p))));
    RawRaw("{", KeyText(true, "timestamp"), AddRaw("\"", q));
    RawRaw("{" + KeyText(true, "timestamp"), "\"", q);
    assert "{" + ("\"" + "timestamp" + "\":") + "\"" == FirstText("timestamp");
  }

  lemma StampRaw(time: string, usec: string, p: Prog)
    ensures AddRaw("\"" + (time + "." + usec) + "\"", p) ==
            AddRaw("\"", AddRaw(time, AddRaw(".", AddRaw(usec, AddRaw("\"", p)))))
  {
    RawRaw("\"" + (time + "." + usec), "\"", p);
    RawRaw("\"", time + "." + usec, AddRaw("\"", p));
    RawRaw(time + ".", usec, AddRaw("\"", p));
    RawRaw(time, ".", AddRaw(usec, AddRaw("\"", p)));
  }

  /** The first two members of either rendering. */
  lemma StampText(r: Record, key: string, rest: Fields, closer: string, k: Prog)
    requires ValidRecord(r) && PlainText(r.time) && KnownKey(key)
    ensures AddRaw("{", FieldsProg(true,
              FCons(false, "timestamp", Fixed(JStr(Stamp(r))), FCons(false, key, Fixed(JStr(LevelName(r.level))),
                rest)), closer, k))
            == StampChunks(r, key, AddRaw("\"", FieldsProg(false, rest, closer, k)))
  {
    var level := FCons(false, key, Fixed(JStr(LevelName(r.level))), rest);
    OpenStamp(r, FieldsProg(false, level, closer, k));
    PlainLevel(r.level);
    RawTextNext(key, LevelName(r.level), rest, closer, k);
  }

  lemma JsonTailText(r: Record)
    requires ValidRecord(r)
    ensures AddRaw("\"", FieldsProg(false, TraceFields(r, FCons(false, "message", Text(OrEmpty(r.message)),
      KvFields(r.kvs, 0))), "\"" + "}", Last("}")))
            == JsonTail(r)
  {
    var closer, k := "\"" + "}", Last("}");
    var message := FCons(false, "message", Text(OrEmpty(r.message)), KvFields(r.kvs, 0));
    TextNext("message", OrEmpty(r.message), KvFields(r.kvs, 0), closer, k);
    IdNext("span_id", r.spanId, message, closer, k);
    IdNext("trace_id", r.traceId, IdField("span_id", r.spanId, message), closer, k);
  }

  /** The chunks of `format_json_ex` print the members of its object. */
  lemma JsonChunksPrint(r: Record)
    requires ValidRecord(r) && PlainText(r.time)
    ensures DocProg(JsonDoc(r)) == JsonLineChunks(r)
  {
    var closer, k := "\"" + "}", Last("}");
    var tail := TraceFields(r, FCons(false, "message", Text(OrEmpty(r.message)), KvFields(r.kvs, 0)));
    JsonTailText(r);
    SourceText(r, tail, closer, k);
    TextNext("module", OrEmpty(r.moduleName), SourceFields(r, tail), closer, k);
    StampText(r, "level", FCons(false, "module", Text(OrEmpty(r.moduleName)), SourceFields(r, tail)), closer, k);
  }

  lemma AttributesText(r: Record, inner: Fields)
    requires inner == FCons(false, "module", Text(OrEmpty(r.moduleName)), SourceFields(r, KvFields(r.kvs, 0)))
    ensures NestedProg("attributes", inner) == AttributeChunks(r)
  {
    var closer, k := "\"" + "}}", Last("}}");
    var p := AddRaw("\"", FieldsProg(false, SourceFields(r, KvFields(r.kvs, 0)), closer, k));
    SourceText(r, KvFields(r.kvs, 0), closer, k);
    KnownIsPlain("module");
    KnownIsPlain("attributes");
    PlainKey(true, "module");
    PlainKey(false, "attributes");
    RawStr("\"" + "module" + "\":\"", OrEmpty(r.moduleName), closer, p);
    assert "\"" + "module" + "\":" + "\"" == "\"" + "module" + "\":\"";
  }

  lemma OtelBodyText(r: Record, k: Prog)
    requires ValidRecord(r) && k == AttributeChunks(r)
    ensures FieldsProg(false, TraceFields(r, FCons(false, "body", Text(OrEmpty(r.message)), FNil)), "\"" + "}", k) ==
      OtelBody(r)
  {
    var closer := "\"" + "}";
    var body := FCons(false, "body", Text(OrEmpty(r.message)), FNil);
    TextFirst("body", OrEmpty(r.message), FNil, closer, k);
    IdFirst("span_id", r.spanId, body, closer, k);
    IdFirst("trace_id", r.traceId, IdField("span_id", r.spanId, body), closer, k);
  }

  /** The chunks of `format_otel_json` print the members of its object. */
  lemma OtelChunksPrint(r: Record)
    requires ValidRecord(r) && PlainText(r.time)
    ensures DocProg(OtelDoc(r)) == OtelLineChunks(r)
  {
    var inner := FCons(false, "module", Text(OrEmpty(r.moduleName)), SourceFields(r, KvFields(r.kvs, 0)));
    AttributesText(r, inner);
    var closer, k := "\"" + "}", NestedProg("attributes", inner);
    var tail := TraceFields(r, FCons(false, "body", Text(OrEmpty(r.message)), FNil));
    OtelBodyText(r, k);
    PlainNext("severity_number", JInt(SeverityNumber(r.level)), tail, closer, k);
    StampText(r, "severity", FCons(false, "severity_number", Fixed(JInt(SeverityNumber(r.level))), tail), closer, k);
  }
}
