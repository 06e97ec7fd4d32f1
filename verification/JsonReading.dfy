/** What a reader of a line finds out about the record: the answers to looking up keys in the parsed
    members, stated for the fields of the record. */
module JsonReading {
  import opened FastAscii
  import opened JsonText
  import opened JsonPrinter
  import opened JsonDocument
  import opened JsonRecord
  import SC = SpanContext
  import SP = StringPacking

  datatype Answer = Missing | Found(value: Json)

  /** The value of the first member with this key. */
  function Lookup(ms: Members, key: string): Answer
  {
    if ms.JNil? then Missing else if ms.key == key then Found(ms.value) else Lookup(ms.rest, key)
  }

  function Count(ms: Members): nat
  {
    if ms.JNil? then 0 else 1 + Count(ms.rest)
  }

  /** The members from number i on. */
  function From(ms: Members, i: nat): (r: Members)
    requires i < Count(ms)
    ensures r.JCons?
  {
    if i == 0 then ms else From(ms.rest, i - 1)
  }

  // ---- what the answers say ----

  /** A string of the record; NULL reads as the empty string. */
  predicate Says(a: Answer, t: SP.Text)
  {
    match t
    case Present(s) => a == Found(JStr(s))
    case Absent => a == Found(JStr(""))
  }

  predicate IsInt(v: Json, n: int)
  {
    v.JNum? && IsNumber(v.text) && IntValue(v.text) == n
  }

  predicate Counts(a: Answer, n: int) { a.Found? && IsInt(a.value, n) }

  /** Seconds, a point and six digits of microseconds. */
  ghost predicate IsStamp(a: Answer, time: string, usec: nat)
  {
    exists digits ::
      |digits| == 6 && AllDigits(digits) && Value(digits) == usec && a == Found(JStr(time + "." + digits))
  }

  predicate IsLevel(a: Answer, level: nat)
  {
    a == Found(JStr(
      match level
      case 0 => "TRACE"
      case 1 => "DEBUG"
      case 2 => "INFO"
      case 3 => "WARN"
      case 4 => "ERROR"
      case 5 => "FATAL"
      case _ => "UNKNOWN"))
  }

  /** The severity numbers of the OpenTelemetry log data model. */
  predicate IsSeverity(a: Answer, level: nat)
  {
    match level
    case 0 => Counts(a, 1)
    case 1 => Counts(a, 5)
    case 2 => Counts(a, 9)
    case 3 => Counts(a, 13)
    case 4 => Counts(a, 17)
    case 5 => Counts(a, 21)
    case _ => Counts(a, 0)
  }

  const HEX_DIGITS: string := "0123456789abcdef"

  /** Two lower-case hexadecimal digits for each byte. */
  predicate IsHexOf(a: Answer, id: seq<nat>)
  {
    a.Found? && a.value.JStr? && |a.value.s| == 2 * |id| &&
    forall i :: 0 <= i < |id| ==>
      id[i] < 256 && a.value.s[2 * i] == HEX_DIGITS[id[i] / 16] && a.value.s[2 * i + 1] == HEX_DIGITS[id[i] % 16]
  }

  /** The members that both renderings take from the source of the message. */
  predicate SaysSource(ms: Members, r: Record)
  {
    && Says(Lookup(ms, "module"), r.moduleName) && Says(Lookup(ms, "file"), r.file)
    && Says(Lookup(ms, "func"), r.func) && Says(Lookup(ms, "tag"), r.tag)
    && Counts(Lookup(ms, "line"), r.line) && Counts(Lookup(ms, "thread"), r.tid) && Counts(Lookup(ms, "pid"), r.pid)
  }

  predicate IsValueOf(v: Json, kv: KvValue)
  {
    match kv
    case KvInt(i) => IsInt(v, i)
    case KvUint(u) => IsInt(v, u)
    case KvFloat(text) => v == JNum(text)
    case KvStr(Present(s)) => v == JStr(s)
    case KvStr(Absent) => v == JStr("")
    case KvBool(b) => v == JBool(b)
  }

  /** The attributes with a key among the first n. */
  function Keyed(kvs: seq<Kv>, n: nat): nat
    requires n <= |kvs|
  {
    if n == 0 then 0 else Keyed(kvs, n - 1) + if kvs[n - 1].key.Present? then 1 else 0
  }

  /** Attribute k stands at its place among the last members, with its key and value. */
  ghost predicate AttributeAt(ms: Members, kvs: seq<Kv>, k: nat)
    requires k < |kvs|
  {
    var all := Keyed(kvs, |kvs|);
    kvs[k].key.Present? ==>
      0 <= Count(ms) - all + Keyed(kvs, k) < Count(ms) &&
      var m := From(ms, Count(ms) - all + Keyed(kvs, k));
      m.key == kvs[k].key.str && IsValueOf(m.value, kvs[k].value)
  }

  /** The last members are the attributes that have a key, in order, with their values. */
  ghost predicate SaysAttributes(ms: Members, kvs: seq<Kv>)
  {
    Count(ms) >= Keyed(kvs, |kvs|) && forall k :: 0 <= k < |kvs| ==> AttributeAt(ms, kvs, k)
  }

  function Ids(r: Record): nat
  {
    (if SC.IsZero(r.traceId) then 0 else 1) + (if SC.IsZero(r.spanId) then 0 else 1)
  }

  /** Everything the JSON line of a record is to tell. */
  ghost predicate JsonTells(ms: Members, r: Record)
  {
    && ms.JCons? && ms.key == "timestamp" && IsStamp(Found(ms.value), r.time, r.usec)
    && IsLevel(Lookup(ms, "level"), r.level) && SaysSource(ms, r) && Says(Lookup(ms, "message"), r.message)
    && (!SC.IsZero(r.traceId) ==> IsHexOf(Lookup(ms, "trace_id"), r.traceId))
    && (!SC.IsZero(r.spanId) ==> IsHexOf(Lookup(ms, "span_id"), r.spanId))
    && Count(ms) == 10 + Ids(r) + Keyed(r.kvs, |r.kvs|) && SaysAttributes(ms, r.kvs)
  }

  /** Everything the OTel line is to tell. */
  ghost predicate OtelTells(ms: Members, r: Record)
  {
    && ms.JCons? && ms.key == "timestamp" && IsStamp(Found(ms.value), r.time, r.usec)
    && IsLevel(Lookup(ms, "severity"), r.level) && IsSeverity(Lookup(ms, "severity_number"), r.level)
    && Says(Lookup(ms, "body"), r.message)
    && (if SC.IsZero(r.traceId) then Lookup(ms, "trace_id").Missing? else IsHexOf(Lookup(ms, "trace_id"), r.traceId))
    && (if SC.IsZero(r.spanId) then Lookup(ms, "span_id").Missing? else IsHexOf(Lookup(ms, "span_id"), r.spanId))
    && Count(ms) == 5 + Ids(r)
    && var a := Lookup(ms, "attributes");
       a.Found? && a.value.JObj? && SaysSource(a.value.members, r) && SaysAttributes(a.value.members, r.kvs) &&
       Count(a.value.members) == 7 + Keyed(r.kvs, |r.kvs|)
  }

  // ---- lookups in the members of a record ----

  lemma FieldLookup(dynamic: bool, k: string, v: Slot, rest: Fields, key: string)
    ensures Lookup(MembersOf(FCons(dynamic, k, v, rest)), key) ==
            if k == key then Found(SlotJson(v)) else Lookup(MembersOf(rest), key)
    ensures Count(MembersOf(FCons(dynamic, k, v, rest))) == 1 + Count(MembersOf(rest))
  {
  }

  /** What a fixed key gives; the others are looked up behind. */
  function SourceAnswer(r: Record, key: string, behind: Answer): Answer
  {
    if key == "file" then Found(JStr(OrEmpty(r.file)))
    else if key == "line" then Found(JInt(r.line))
    else if key == "func" then Found(JStr(OrEmpty(r.func)))
    else if key == "thread" then Found(JInt(r.tid))
    else if key == "pid" then Found(JInt(r.pid))
    else if key == "tag" then Found(JStr(OrEmpty(r.tag)))
    else behind
  }

  lemma SourceLookup(r: Record, rest: Fields, key: string)
    ensures Lookup(MembersOf(SourceFields(r, rest)), key) == SourceAnswer(r, key, Lookup(MembersOf(rest), key))
    ensures Count(MembersOf(SourceFields(r, rest))) == 6 + Count(MembersOf(rest))
  {
    var tag := FCons(false, "tag", Text(OrEmpty(r.tag)), rest);
    var pid := FCons(false, "pid", Fixed(JInt(r.pid)), tag);
    var thread := FCons(false, "thread", Fixed(JInt(r.tid)), pid);
    var func := FCons(false, "func", Text(OrEmpty(r.func)), thread);
    var line := FCons(false, "line", Fixed(JInt(r.line)), func);
    FieldLookup(false, "tag", tag.value, rest, key);
    FieldLookup(false, "pid", pid.value, tag, key);
    FieldLookup(false, "thread", thread.value, pid, key);
    FieldLookup(false, "func", func.value, thread, key);
    FieldLookup(false, "line", line.value, func, key);
    FieldLookup(false, "file", Text(OrEmpty(r.file)), line, key);
  }

  function IdAnswer(name: string, id: seq<nat>, key: string, behind: Answer): Answer
    requires Bytes(id)
  {
    if key == name && !SC.IsZero(id) then Found(JStr(SC.Hex(id, |id|))) else behind
  }

  lemma TraceLookup(r: Record, rest: Fields, key: string)
    requires ValidRecord(r)
    ensures Lookup(MembersOf(TraceFields(r, rest)), key) ==
            IdAnswer("trace_id", r.traceId, key, IdAnswer("span_id", r.spanId, key, Lookup(MembersOf(rest), key)))
    ensures Count(MembersOf(TraceFields(r, rest))) == Ids(r) + Count(MembersOf(rest))
  {
    FieldLookup(false, "span_id", Fixed(JStr(SC.Hex(r.spanId, |r.spanId|))), rest, key);
    var span := IdField("span_id", r.spanId, rest);
    FieldLookup(false, "trace_id", Fixed(JStr(SC.Hex(r.traceId, |r.traceId|))), span, key);
  }

  function JsonBehind(r: Record): Fields
    requires ValidRecord(r)
  {
    SourceFields(r, TraceFields(r, FCons(false, "message", Text(OrEmpty(r.message)), KvFields(r.kvs, 0))))
  }

  lemma JsonLookup(r: Record, key: string)
    requires ValidRecord(r)
    ensures var kvs := Lookup(MembersOf(KvFields(r.kvs, 0)), key);
      var message := if key == "message" then Found(JStr(OrEmpty(r.message))) else kvs;
      Lookup(MembersOf(JsonBehind(r)), key) ==
      SourceAnswer(r, key, IdAnswer("trace_id", r.traceId, key, IdAnswer("span_id", r.spanId, key, message)))
    ensures Count(MembersOf(JsonBehind(r))) == 7 + Ids(r) + Count(MembersOf(KvFields(r.kvs, 0)))
  {
    var message := FCons(false, "message", Text(OrEmpty(r.message)), KvFields(r.kvs, 0));
    FieldLookup(false, "message", message.value, KvFields(r.kvs, 0), key);
    TraceLookup(r, message, key);
    SourceLookup(r, TraceFields(r, message), key);
  }

  lemma JsonFirst(r: Record, key: string)
    requires ValidRecord(r)
    ensures Lookup(MembersOf(JsonFields(r)), key) ==
            if key == "timestamp" then Found(JStr(Stamp(r)))
            else if key == "level" then Found(JStr(LevelName(r.level)))
            else if key == "module" then Found(JStr(OrEmpty(r.moduleName)))
            else Lookup(MembersOf(JsonBehind(r)), key)
    ensures Count(MembersOf(JsonFields(r))) == 3 + Count(MembersOf(JsonBehind(r)))
  {
    var name := FCons(false, "module", Text(OrEmpty(r.moduleName)), JsonBehind(r));
    var level := FCons(false, "level", Fixed(JStr(LevelName(r.level))), name);
    FieldLookup(false, "module", name.value, JsonBehind(r), key);
    FieldLookup(false, "level", level.value, name, key);
    FieldLookup(false, "timestamp", Fixed(JStr(Stamp(r))), level, key);
  }

  // ---- attributes ----

  lemma SlotIsValue(v: KvValue)
    ensures IsValueOf(SlotJson(KvSlot(v)), v)
  {
    match v {
      case KvInt(i) => IntIsNumber(i);
      case KvUint(u) => IntIsNumber(u);
      case _ =>
    }
  }

  /** The members of the attributes from i on. */
  lemma {:induction false} KvMembers(kvs: seq<Kv>, i: nat)
    requires i <= |kvs|
    ensures Count(MembersOf(KvFields(kvs, i))) == Keyed(kvs, |kvs|) - Keyed(kvs, i)
    decreases |kvs| - i
  {
    if i == |kvs| {
    } else {
      KvMembers(kvs, i + 1);
    }
  }

  /** The first of these members is the attribute. */
  predicate IsAttribute(ms: Members, kv: Kv)
  {
    ms.JCons? && kv.key.Present? && ms.key == kv.key.str && IsValueOf(ms.value, kv.value)
  }

  predicate AttributeFrom(ms: Members, n: int, kv: Kv)
  {
    0 <= n < Count(ms) && IsAttribute(From(ms, n), kv)
  }

  lemma FromNext(key: string, v: Json, rest: Members, n: int, kv: Kv)
    requires AttributeFrom(rest, n, kv)
    ensures AttributeFrom(JCons(key, v, rest), n + 1, kv)
  {
  }

  lemma KvFirst(kvs: seq<Kv>, k: nat)
    requires k < |kvs| && kvs[k].key.Present?
    ensures AttributeFrom(MembersOf(KvFields(kvs, k)), 0, kvs[k])
  {
    KvNext(kvs, k);
    SlotIsValue(kvs[k].value);
  }

  lemma {:induction false} KvMemberAt(kvs: seq<Kv>, i: nat, k: nat)
    requires i <= k < |kvs| && kvs[k].key.Present?
    ensures AttributeFrom(MembersOf(KvFields(kvs, i)), Keyed(kvs, k) - Keyed(kvs, i), kvs[k])
    decreases k - i
  {
    if i == k {
      KvFirst(kvs, k);
    } else {
      KvMemberAt(kvs, i + 1, k);
      KvBefore(kvs, i, Keyed(kvs, k) - Keyed(kvs, i + 1), kvs[k]);
    }
  }

  lemma KvBefore(kvs: seq<Kv>, i: nat, n: int, kv: Kv)
    requires i < |kvs| && AttributeFrom(MembersOf(KvFields(kvs, i + 1)), n, kv)
    ensures AttributeFrom(MembersOf(KvFields(kvs, i)), n + Keyed(kvs, i + 1) - Keyed(kvs, i), kv)
  {
    KvNext(kvs, i);
    if kvs[i].key.Present? {
      FromNext(kvs[i].key.str, SlotJson(KvSlot(kvs[i].value)), MembersOf(KvFields(kvs, i + 1)), n, kv);
    }
  }

  lemma KvNext(kvs: seq<Kv>, i: nat)
    requires i < |kvs|
    ensures var ms, rest := MembersOf(KvFields(kvs, i)), MembersOf(KvFields(kvs, i + 1));
      if kvs[i].key.Present? then
        Keyed(kvs, i + 1) == Keyed(kvs, i) + 1 && ms == JCons(kvs[i].key.str, SlotJson(KvSlot(kvs[i].value)), rest)
      else Keyed(kvs, i + 1) == Keyed(kvs, i) && ms == rest
  {
  }

  lemma KvsSay(kvs: seq<Kv>)
    ensures SaysAttributes(MembersOf(KvFields(kvs, 0)), kvs)
    ensures Count(MembersOf(KvFields(kvs, 0))) == Keyed(kvs, |kvs|)
  {
    KvMembers(kvs, 0);
    forall k | 0 <= k < |kvs| ensures AttributeAt(MembersOf(KvFields(kvs, 0)), kvs, k) {
      if kvs[k].key.Present? {
        KvMemberAt(kvs, 0, k);
      }
    }
  }

  /** Members in front do not matter. */
  lemma SaysBehind(dynamic: bool, k: string, v: Slot, rest: Fields, kvs: seq<Kv>)
    requires SaysAttributes(MembersOf(rest), kvs)
    ensures SaysAttributes(MembersOf(FCons(dynamic, k, v, rest)), kvs)
  {
    var ms := MembersOf(FCons(dynamic, k, v, rest));
    forall j | 0 <= j < |kvs| ensures AttributeAt(ms, kvs, j) {
      assert AttributeAt(MembersOf(rest), kvs, j);
    }
  }

  lemma SourceSaysBehind(r: Record, rest: Fields, kvs: seq<Kv>)
    requires SaysAttributes(MembersOf(rest), kvs)
    ensures SaysAttributes(MembersOf(SourceFields(r, rest)), kvs)
  {
    var tag := FCons(false, "tag", Text(OrEmpty(r.tag)), rest);
    var pid := FCons(false, "pid", Fixed(JInt(r.pid)), tag);
    var thread := FCons(false, "thread", Fixed(JInt(r.tid)), pid);
    var func := FCons(false, "func", Text(OrEmpty(r.func)), thread);
    var line := FCons(false, "line", Fixed(JInt(r.line)), func);
    SaysBehind(false, "tag", tag.value, rest, kvs);
    SaysBehind(false, "pid", pid.value, tag, kvs);
    SaysBehind(false, "thread", thread.value, pid, kvs);
    SaysBehind(false, "func", func.value, thread, kvs);
    SaysBehind(false, "line", line.value, func, kvs);
    SaysBehind(false, "file", Text(OrEmpty(r.file)), line, kvs);
  }

  lemma IdSaysBehind(key: string, id: seq<nat>, rest: Fields, kvs: seq<Kv>)
    requires Bytes(id) && SaysAttributes(MembersOf(rest), kvs)
    ensures SaysAttributes(MembersOf(IdField(key, id, rest)), kvs)
  {
    if !SC.IsZero(id) {
      SaysBehind(false, key, Fixed(JStr(SC.Hex(id, |id|))), rest, kvs);
    }
  }

  lemma JsonSaysAttributes(r: Record)
    requires ValidRecord(r)
    ensures SaysAttributes(MembersOf(JsonFields(r)), r.kvs)
  {
    KvsSay(r.kvs);
    var message := FCons(false, "message", Text(OrEmpty(r.message)), KvFields(r.kvs, 0));
    SaysBehind(false, "message", message.value, KvFields(r.kvs, 0), r.kvs);
    IdSaysBehind("span_id", r.spanId, message, r.kvs);
    IdSaysBehind("trace_id", r.traceId, IdField("span_id", r.spanId, message), r.kvs);
    SourceSaysBehind(r, TraceFields(r, message), r.kvs);
    var name := FCons(false, "module", Text(OrEmpty(r.moduleName)), JsonBehind(r));
    var level := FCons(false, "level", Fixed(JStr(LevelName(r.level))), name);
    SaysBehind(false, "module", name.value, JsonBehind(r), r.kvs);
    SaysBehind(false, "level", level.value, name, r.kvs);
    SaysBehind(false, "timestamp", Fixed(JStr(Stamp(r))), level, r.kvs);
  }

  // ---- both renderings ----

  lemma HexTells(id: seq<nat>)
    requires Bytes(id)
    ensures IsHexOf(Found(JStr(SC.Hex(id, |id|))), id)
  {
    forall i | 0 <= i < |id|
      ensures HexDigit(id[i] / 16) == HEX_DIGITS[id[i] / 16] && HexDigit(id[i] % 16) == HEX_DIGITS[id[i] % 16]
    {
      HexDigitIs(id[i] / 16);
      HexDigitIs(id[i] % 16);
    }
  }

  lemma HexDigitIs(d: nat)
    requires d < 16
    ensures HexDigit(d) == HEX_DIGITS[d]
  {
    assert d == 0 || d == 1 || d == 2 || d == 3 || d == 4 || d == 5 || d == 6 || d == 7 || d == 8 || d == 9 ||
           d == 10 || d == 11 || d == 12 || d == 13 || d == 14 || d == 15;
  }

  lemma StampTells(r: Record)
    requires ValidRecord(r)
    ensures IsStamp(Found(JStr(Stamp(r))), r.time, r.usec)
  {
    Pad6Value(r.usec);
  }

  /** Keys of one length differ in a letter. */
  lemma KeysDiffer()
    ensures "file" != "line" && "file" != "func" && "line" != "func" && "pid" != "tag" && "module" != "thread"
    ensures "severity" != "trace_id" && "body" != "file"
  {
    assert "file"[0] != "line"[0] && "file"[1] != "func"[1] && "line"[0] != "func"[0] && "pid"[0] != "tag"[0];
    assert "module"[0] != "thread"[0] && "severity"[0] != "trace_id"[0] && "body"[0] != "file"[0];
  }

  lemma IntTells(n: int)
    ensures Counts(Found(JInt(n)), n)
  {
    IntIsNumber(n);
  }

  lemma SourceKeys(r: Record, behind: Answer)
    ensures SourceAnswer(r, "file", behind) == Found(JStr(OrEmpty(r.file)))
    ensures SourceAnswer(r, "line", behind) == Found(JInt(r.line))
    ensures SourceAnswer(r, "func", behind) == Found(JStr(OrEmpty(r.func)))
    ensures SourceAnswer(r, "thread", behind) == Found(JInt(r.tid))
    ensures SourceAnswer(r, "pid", behind) == Found(JInt(r.pid))
    ensures SourceAnswer(r, "tag", behind) == Found(JStr(OrEmpty(r.tag)))
  {
    KeysDiffer();
  }

  /** These keys are answered by the source of the message. */
  ghost predicate FromSource(ms: Members, r: Record, key: string)
  {
    exists behind :: Lookup(ms, key) == SourceAnswer(r, key, behind)
  }

  lemma SourceTexts(ms: Members, r: Record)
    requires FromSource(ms, r, "file") && FromSource(ms, r, "func") && FromSource(ms, r, "tag")
    ensures Says(Lookup(ms, "file"), r.file) && Says(Lookup(ms, "func"), r.func) && Says(Lookup(ms, "tag"), r.tag)
  {
    SourceKeys(r, Missing);
    var a :| Lookup(ms, "file") == SourceAnswer(r, "file", a);
    var b :| Lookup(ms, "func") == SourceAnswer(r, "func", b);
    var c :| Lookup(ms, "tag") == SourceAnswer(r, "tag", c);
    SourceKeys(r, a);
    SourceKeys(r, b);
    SourceKeys(r, c);
  }

  lemma SourceNumbers(ms: Members, r: Record)
    requires FromSource(ms, r, "line") && FromSource(ms, r, "thread") && FromSource(ms, r, "pid")
    ensures Counts(Lookup(ms, "line"), r.line) && Counts(Lookup(ms, "thread"), r.tid)
    ensures Counts(Lookup(ms, "pid"), r.pid)
  {
    IntTells(r.line);
    IntTells(r.tid);
    IntTells(r.pid);
    var a :| Lookup(ms, "line") == SourceAnswer(r, "line", a);
    var b :| Lookup(ms, "thread") == SourceAnswer(r, "thread", b);
    var c :| Lookup(ms, "pid") == SourceAnswer(r, "pid", c);
    SourceKeys(r, a);
    SourceKeys(r, b);
    SourceKeys(r, c);
  }

  predicate IsSourceKey(key: string)
  {
    key == "file" || key == "line" || key == "func" || key == "thread" || key == "pid" || key == "tag"
  }

  lemma JsonFromSource(r: Record, key: string)
    requires ValidRecord(r) && IsSourceKey(key)
    ensures FromSource(MembersOf(JsonFields(r)), r, key)
  {
    KeysDiffer();
    JsonFirst(r, key);
    JsonLookup(r, key);
  }

  lemma JsonSource(r: Record)
    requires ValidRecord(r)
    ensures SaysSource(MembersOf(JsonFields(r)), r)
  {
    JsonFirst(r, "module");
    JsonFromSource(r, "file");
    JsonFromSource(r, "line");
    JsonFromSource(r, "func");
    JsonFromSource(r, "thread");
    JsonFromSource(r, "pid");
    JsonFromSource(r, "tag");
    SourceTexts(MembersOf(JsonFields(r)), r);
    SourceNumbers(MembersOf(JsonFields(r)), r);
  }

  lemma JsonIds(r: Record)
    requires ValidRecord(r)
    ensures var ms := MembersOf(JsonFields(r));
      && (!SC.IsZero(r.traceId) ==> IsHexOf(Lookup(ms, "trace_id"), r.traceId))
      && (!SC.IsZero(r.spanId) ==> IsHexOf(Lookup(ms, "span_id"), r.spanId))
  {
    KeysDiffer();
    HexTells(r.traceId);
    HexTells(r.spanId);
    JsonFirst(r, "trace_id");
    JsonLookup(r, "trace_id");
    JsonFirst(r, "span_id");
    JsonLookup(r, "span_id");
  }

  /** The members of the JSON line tell the record. */
  lemma JsonDocTells(r: Record)
    requires ValidRecord(r)
    ensures JsonTells(DocMembers(JsonDoc(r)), r)
  {
    StampTells(r);
    JsonFirst(r, "level");
    JsonFirst(r, "message");
    JsonLookup(r, "message");
    JsonSource(r);
    JsonIds(r);
    KvsSay(r.kvs);
    JsonSaysAttributes(r);
  }

  lemma {:induction false} LookupAppend(a: Members, b: Members, key: string)
    ensures Lookup(Append(a, b), key) == if Lookup(a, key).Found? then Lookup(a, key) else Lookup(b, key)
    ensures Count(Append(a, b)) == Count(a) + Count(b)
  {
    if a.JNil? {
    } else {
      LookupAppend(a.rest, b, key);
    }
  }

  lemma OtelOuterLookup(r: Record, key: string)
    requires ValidRecord(r)
    ensures var body := if key == "body" then Found(JStr(OrEmpty(r.message))) else Missing;
      Lookup(MembersOf(OtelOuter(r)), key) ==
        if key == "timestamp" then Found(JStr(Stamp(r)))
        else if key == "severity" then Found(JStr(LevelName(r.level)))
        else if key == "severity_number" then Found(JInt(SeverityNumber(r.level)))
        else IdAnswer("trace_id", r.traceId, key, IdAnswer("span_id", r.spanId, key, body))
    ensures Count(MembersOf(OtelOuter(r))) == 4 + Ids(r)
  {
    var body := FCons(false, "body", Text(OrEmpty(r.message)), FNil);
    FieldLookup(false, "body", body.value, FNil, key);
    TraceLookup(r, body, key);
    var ids := TraceFields(r, body);
    var number := FCons(false, "severity_number", Fixed(JInt(SeverityNumber(r.level))), ids);
    var severity := FCons(false, "severity", Fixed(JStr(LevelName(r.level))), number);
    FieldLookup(false, "severity_number", number.value, ids, key);
    FieldLookup(false, "severity", severity.value, number, key);
    FieldLookup(false, "timestamp", Fixed(JStr(Stamp(r))), severity, key);
  }

  function OtelInner(r: Record): Fields
  {
    FCons(false, "module", Text(OrEmpty(r.moduleName)), SourceFields(r, KvFields(r.kvs, 0)))
  }

  lemma OtelFromSource(r: Record, key: string)
    requires IsSourceKey(key)
    ensures FromSource(MembersOf(OtelInner(r)), r, key)
  {
    KeysDiffer();
    FieldLookup(false, "module", Text(OrEmpty(r.moduleName)), SourceFields(r, KvFields(r.kvs, 0)), key);
    SourceLookup(r, KvFields(r.kvs, 0), key);
  }

  lemma OtelSource(r: Record)
    ensures SaysSource(MembersOf(OtelInner(r)), r)
  {
    FieldLookup(false, "module", Text(OrEmpty(r.moduleName)), SourceFields(r, KvFields(r.kvs, 0)), "module");
    OtelFromSource(r, "file");
    OtelFromSource(r, "line");
    OtelFromSource(r, "func");
    OtelFromSource(r, "thread");
    OtelFromSource(r, "pid");
    OtelFromSource(r, "tag");
    SourceTexts(MembersOf(OtelInner(r)), r);
    SourceNumbers(MembersOf(OtelInner(r)), r);
  }

  lemma OtelInnerTells(r: Record)
    ensures var ms := MembersOf(OtelInner(r));
      SaysSource(ms, r) && SaysAttributes(ms, r.kvs) && Count(ms) == 7 + Keyed(r.kvs, |r.kvs|)
  {
    var rest := SourceFields(r, KvFields(r.kvs, 0));
    OtelSource(r);
    KvsSay(r.kvs);
    SourceSaysBehind(r, KvFields(r.kvs, 0), r.kvs);
    SaysBehind(false, "module", Text(OrEmpty(r.moduleName)), rest, r.kvs);
    SourceLookup(r, KvFields(r.kvs, 0), "");
    FieldLookup(false, "module", Text(OrEmpty(r.moduleName)), rest, "");
  }

  /** One lookup in the OTel document. */
  lemma OtelLookup(r: Record, key: string)
    requires ValidRecord(r)
    ensures var outer := Lookup(MembersOf(OtelOuter(r)), key);
      Lookup(DocMembers(OtelDoc(r)), key) ==
        if outer.Found? then outer
        else if key == "attributes" then Found(JObj(MembersOf(OtelInner(r)))) else Missing
    ensures Count(DocMembers(OtelDoc(r))) == 5 + Ids(r)
  {
    var last := JCons("attributes", JObj(MembersOf(OtelInner(r))), JNil);
    LookupAppend(MembersOf(OtelOuter(r)), last, key);
    OtelOuterLookup(r, key);
  }

  lemma OtelIds(r: Record)
    requires ValidRecord(r)
    ensures var ms := DocMembers(OtelDoc(r));
      && (if SC.IsZero(r.traceId) then Lookup(ms, "trace_id").Missing? else IsHexOf(Lookup(ms, "trace_id"), r.traceId))
      && (if SC.IsZero(r.spanId) then Lookup(ms, "span_id").Missing? else IsHexOf(Lookup(ms, "span_id"), r.spanId))
  {
    KeysDiffer();
    HexTells(r.traceId);
    HexTells(r.spanId);
    OtelLookup(r, "trace_id");
    OtelOuterLookup(r, "trace_id");
    OtelLookup(r, "span_id");
    OtelOuterLookup(r, "span_id");
  }

  lemma OtelHead(r: Record)
    requires ValidRecord(r)
    ensures var ms := DocMembers(OtelDoc(r));
      && IsLevel(Lookup(ms, "severity"), r.level) && IsSeverity(Lookup(ms, "severity_number"), r.level)
      && Says(Lookup(ms, "body"), r.message)
  {
    IntIsNumber(SeverityNumber(r.level));
    OtelLookup(r, "severity");
    OtelOuterLookup(r, "severity");
    OtelLookup(r, "severity_number");
    OtelOuterLookup(r, "severity_number");
    OtelLookup(r, "body");
    OtelOuterLookup(r, "body");
  }

  /** The members of the OTel line tell the record. */
  lemma OtelDocTells(r: Record)
    requires ValidRecord(r)
    ensures OtelTells(DocMembers(OtelDoc(r)), r)
  {
    StampTells(r);
    OtelHead(r);
    OtelIds(r);
    OtelLookup(r, "attributes");
    OtelOuterLookup(r, "attributes");
    OtelInnerTells(r);
  }

  // ---- texts ----

  /** Parsing the text gives members that tell the record. */
  ghost predicate JsonReads(t: string, r: Record)
  {
    exists ms :: Parse(t) == Good(JObj(ms), |t|) && JsonTells(ms, r)
  }

  ghost predicate OtelReads(t: string, r: Record)
  {
    exists ms :: Parse(t) == Good(JObj(ms), |t|) && OtelTells(ms, r)
  }
}
