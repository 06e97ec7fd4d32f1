/** The members of the two JSON renderings of a log record, and the chunks in which the
    renderers print them. */
module JsonRecord {
  import opened FastAscii
  import opened JsonText
  import opened JsonPrinter
  import opened JsonDocument
  import opened JsonNumbers
  import SC = SpanContext
  import SP = StringPacking

  /** A typed attribute; of a floating point value, what the C library prints for it. */
  datatype KvValue = KvInt(i64: int) | KvUint(u64: nat) | KvFloat(text: NumberText) | KvStr(str: SP.Text)
    | KvBool(b: bool)

  datatype Kv = Kv(key: SP.Text, value: KvValue)

  /** `time` is the rendered second, `usec` the microseconds of the timestamp. */
  datatype Record = Record(time: string, usec: nat, level: nat, moduleName: SP.Text, file: SP.Text, func: SP.Text,
                           tag: SP.Text, message: SP.Text, line: int, tid: nat, pid: nat,
                           traceId: seq<nat>, spanId: seq<nat>, kvs: seq<Kv>)

  predicate ValidKv(kv: Kv)
  {
    match kv.value
    case KvInt(i) => -0x8000_0000_0000_0000 <= i < 0x8000_0000_0000_0000
    case KvUint(u) => u < U64_VALUES
    case KvFloat(text) => FloatText(text)
    case _ => true
  }

  predicate Bytes(id: seq<nat>) { forall i :: 0 <= i < |id| ==> id[i] < 256 }

  predicate ValidRecord(r: Record)
  {
    r.usec < 1_000_000 && -0x8000_0000 <= r.line < 0x8000_0000 &&
    r.tid < U32_VALUES && r.pid < U32_VALUES && Bytes(r.traceId) && Bytes(r.spanId) &&
    |r.traceId| == 16 && |r.spanId| == 8 && forall i :: 0 <= i < |r.kvs| ==> ValidKv(r.kvs[i])
  }

  /** `NULL` prints as the empty string. */
  function OrEmpty(t: SP.Text): string { if t.Absent? then "" else t.str }

  function LevelName(level: nat): string
  {
    match level
    case 0 => "TRACE"
    case 1 => "DEBUG"
    case 2 => "INFO"
    case 3 => "WARN"
    case 4 => "ERROR"
    case 5 => "FATAL"
    case _ => "UNKNOWN"
  }

  function SeverityNumber(level: nat): int
  {
    match level
    case 0 => 1
    case 1 => 5
    case 2 => 9
    case 3 => 13
    case 4 => 17
    case 5 => 21
    case _ => 0
  }

  function Stamp(r: Record): string
    requires ValidRecord(r)
  {
    r.time + "." + Pad6(r.usec)
  }

  // ---- members ----

  function KvSlot(v: KvValue): Slot
  {
    match v
    case KvInt(i) => Fixed(JInt(i))
    case KvUint(u) => Fixed(JInt(u))
    case KvFloat(text) => Fixed(JNum(text))
    case KvStr(s) => Text(OrEmpty(s))
    case KvBool(b) => Fixed(JBool(b))
  }

  /** Attributes without a key are skipped. */
  function KvFields(kvs: seq<Kv>, i: nat): Fields
    requires i <= |kvs|
    decreases |kvs| - i
  {
    if i == |kvs| then FNil
    else if kvs[i].key.Absent? then KvFields(kvs, i + 1)
    else FCons(true, kvs[i].key.str, KvSlot(kvs[i].value), KvFields(kvs, i + 1))
  }

  function SourceFields(r: Record, rest: Fields): Fields
  {
    FCons(false, "file", Text(OrEmpty(r.file)),
    FCons(false, "line", Fixed(JInt(r.line)),
    FCons(false, "func", Text(OrEmpty(r.func)),
    FCons(false, "thread", Fixed(JInt(r.tid)),
    FCons(false, "pid", Fixed(JInt(r.pid)),
    FCons(false, "tag", Text(OrEmpty(r.tag)), rest))))))
  }

  function IdField(key: string, id: seq<nat>, rest: Fields): Fields
    requires Bytes(id)
  {
    if SC.IsZero(id) then rest else FCons(false, key, Fixed(JStr(SC.Hex(id, |id|))), rest)
  }

  function TraceFields(r: Record, rest: Fields): Fields
    requires ValidRecord(r)
  {
    IdField("trace_id", r.traceId, IdField("span_id", r.spanId, rest))
  }

  /** `format_json_ex`. */
  function JsonFields(r: Record): Fields
    requires ValidRecord(r)
  {
    FCons(false, "timestamp", Fixed(JStr(Stamp(r))),
    FCons(false, "level", Fixed(JStr(LevelName(r.level))),
    FCons(false, "module", Text(OrEmpty(r.moduleName)),
    SourceFields(r, TraceFields(r, FCons(false, "message", Text(OrEmpty(r.message)), KvFields(r.kvs, 0)))))))
  }

  function JsonDoc(r: Record): (d: Doc)
    requires ValidRecord(r)
    ensures ValidDoc(d)
  {
    Flat(JsonFields(r))
  }

  /** `format_otel_json`. */
  function OtelOuter(r: Record): Fields
    requires ValidRecord(r)
  {
    FCons(false, "timestamp", Fixed(JStr(Stamp(r))),
    FCons(false, "severity", Fixed(JStr(LevelName(r.level))),
    FCons(false, "severity_number", Fixed(JInt(SeverityNumber(r.level))),
    TraceFields(r, FCons(false, "body", Text(OrEmpty(r.message)), FNil)))))
  }

  function OtelDoc(r: Record): (d: Doc)
    requires ValidRecord(r)
    ensures ValidDoc(d)
  {
    Nested(OtelOuter(r), "attributes",
      FCons(false, "module", Text(OrEmpty(r.moduleName)), SourceFields(r, KvFields(r.kvs, 0))))
  }

  // ---- plain text prints as itself ----

  predicate PlainText(s: string)
  {
    forall i :: 0 <= i < |s| ==> s[i] >= ' ' && s[i] != '"' && s[i] != '\\'
  }

  lemma {:induction false} PlainEscTo(s: string, n: nat)
    requires PlainText(s) && n <= |s|
    ensures EscTo(s, n) == s[..n]
  {
    if n == 0 {
    } else {
      PlainEscTo(s, n - 1);
      assert Esc(s[n - 1]) == [s[n - 1]];
    }
  }

  lemma PlainEscaped(s: string)
    requires PlainText(s)
    ensures Escaped(s) == s
  {
    PlainEscTo(s, |s|);
  }

  lemma PlainKey(first: bool, key: string)
    requires PlainText(key)
    ensures KeyText(first, key) == Opening(first) + key + "\":"
  {
    PlainEscaped(key);
  }

  lemma PlainDigits(n: nat)
    requires n < 1_000_000
    ensures PlainText(Pad6(n))
  {
  }

  lemma PlainStamp(r: Record)
    requires ValidRecord(r) && PlainText(r.time)
    ensures PlainText(Stamp(r))
  {
    PlainDigits(r.usec);
  }

  lemma {:induction false} PlainHex(id: seq<nat>, n: nat)
    requires Bytes(id) && n <= |id|
    ensures PlainText(SC.Hex(id, n))
  {
    if n == 0 {
    } else {
      PlainHex(id, n - 1);
    }
  }
}
