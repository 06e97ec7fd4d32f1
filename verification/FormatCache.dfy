/** The token renderer `format_impl` with its per-thread cache of compiled formats. */
module FormatCache {
  import opened CStrings
  import opened FastAscii
  import opened FormatProgram
  import opened FormatTokens
  import opened JsonChunks
  import opened JsonRecord
  import SC = SpanContext
  import JsonFormat
  import JC = JsonCursor
  import JP = JsonPrinter
  import SP = StringPacking

  const MAX_OPS: nat := 64
  const MAX_FORMAT_SIZE: nat := 1024

  /** The end of the literal that starts at i. */
  method SkipLiteral(str: string, i: nat) returns (j: nat)
    requires i <= |str|
    ensures j == LiteralEnd(str, i)
  {
    j := i;
    while j < |str| && str[j] != '%'
      invariant i <= j <= |str| && LiteralEnd(str, j) == LiteralEnd(str, i)
    {
      j := j + 1;
    }
  }

  /** One turn of the loop of `fmt_compile`: the instruction at `pos` and where the next one
      starts. */
  method CompileOne(str: string, pos: nat) returns (op: Op, next: nat)
    requires pos < |str|
    ensures op == SegOp(Lexed(str), pos) && next == SegEnd(Lexed(str), pos)
  {
    if str[pos] != '%' {
      next := SkipLiteral(str, pos);
      return Literal(pos, next - pos), next;
    }
    var found := FindToken(str, pos + 1);
    match found {
      case Tok(t, end) => return Field(t), end;
      case NoToken => return Literal(pos, 1), pos + 1;
    }
  }

  method CompileNext(str: string, pos: nat, ops: array<Op>, n: nat, ghost f: Format) returns (next: nat)
    requires f == Lexed(str) && pos < |str| && n < ops.Length && pos == Covered(f, 0, n)
    modifies ops
    ensures next == Covered(f, 0, n + 1)
    ensures ops[n] == SegOp(f, pos) && forall k :: 0 <= k < ops.Length && k != n ==> ops[k] == old(ops[k])
  {
    var op;
    op, next := CompileOne(str, pos);
    ops[n] := op;
    CoveredNext(f, 0, n);
  }

  /** `fmt_compile`. */
  method Compile(str: string, ops: array<Op>) returns (n: nat)
    requires ops.Length > 0
    modifies ops
    ensures n < ops.Length && IsProgram(Lexed(str), ops[..n], ops.Length - 1)
  {
    ghost var f := Lexed(str);
    var pos := 0;
    n := 0;
    while pos < |str| && n < ops.Length - 1
      invariant n < ops.Length && pos == Covered(f, 0, n)
      invariant forall k :: 0 <= k < n ==> Covered(f, 0, k) < |str| && ops[k] == SegOp(f, Covered(f, 0, k))
      decreases ops.Length - n
    {
      pos := CompileNext(str, pos, ops, n, f);
      n := n + 1;
    }
  }

  // ---- what is printed ----

  function Or(t: SP.Text, absent: string): string
  {
    if t.Absent? then absent else t.str
  }

  function IdText(id: seq<nat>): string
    requires Bytes(id)
  {
    if SC.IsZero(id) then "" else SC.Hex(id, |id|)
  }

  function TokenText(r: Record, t: Token): string
    requires ValidRecord(r)
  {
    match t
    case TTime => r.time
    case TLevel => LevelName(r.level)
    case TMsg => Or(r.message, "(no message)")
    case TThread => Decimal(r.tid)
    case TPid => Decimal(r.pid)
    case TFile => Or(r.file, "(unknown)")
    case TLine => SignedDecimal(r.line)
    case TFunc => Or(r.func, "(unknown)")
    case TModule => Or(r.moduleName, "(unknown)")
    case TTag => Or(r.tag, "")
    case TNewline => "\n"
    case TTraceId => IdText(r.traceId)
    case TSpanId => IdText(r.spanId)
  }

  ghost function Texts(r: Record): Token -> string
  {
    t => if ValidRecord(r) then TokenText(r, t) else ""
  }

  function KvText(v: KvValue): string
  {
    match v
    case KvInt(i) => SignedDecimal(i)
    case KvUint(u) => Decimal(u)
    case KvFloat(text) => text
    case KvStr(s) => Or(s, "")
    case KvBool(b) => if b then "true" else "false"
  }

  /** ` key=value` for the first n attributes; those without a key are skipped. */
  function KvSuffix(kvs: seq<Kv>, n: nat): string
    requires n <= |kvs|
  {
    if n == 0 then ""
    else if kvs[n - 1].key.Absent? then KvSuffix(kvs, n - 1)
    else KvSuffix(kvs, n - 1) + (" " + kvs[n - 1].key.str + "=" + KvText(kvs[n - 1].value))
  }

  /** The copy of a format string that the cache keeps. */
  function Kept(fmt: string): string
  {
    if |fmt| < MAX_FORMAT_SIZE then fmt else fmt[..MAX_FORMAT_SIZE - 1]
  }

  /** The unbounded rendering: direct substitution of the segments that fit a program, then the
      attributes. */
  ghost function Ideal(r: Record, fmt: string): string
  {
    var f := Lexed(Kept(fmt));
    Subst(f, 0, Covered(f, 0, MAX_OPS - 1), Texts(r)) + KvSuffix(r.kvs, |r.kvs|)
  }

  function Cut(s: string, room: nat): string
  {
    if |s| <= room then s else s[..room]
  }

  /** For formats of at most 1023 bytes and 63 segments the whole format is substituted; a
      format of more segments loses those behind the 63rd. */
  lemma IdealIff(r: Record, fmt: string)
    ensures var f := Lexed(Kept(fmt));
      Covered(f, 0, MAX_OPS - 1) == |f.str| <==> SegCount(f, 0) <= MAX_OPS - 1
    ensures |fmt| < MAX_FORMAT_SIZE && SegCount(Lexed(fmt), 0) < MAX_OPS ==>
      Ideal(r, fmt) == Subst(Lexed(fmt), 0, |fmt|, Texts(r)) + KvSuffix(r.kvs, |r.kvs|)
  {
    CoveredIff(Lexed(Kept(fmt)), 0, MAX_OPS - 1);
  }

  // ---- the output buffer ----

  class Output {
    const buf: array<char>
    var out: nat
    var remaining: nat
    ghost var all: string

    /** The buffer holds what fits of everything that was appended. */
    ghost predicate Valid()
      reads this, buf
    {
      out + remaining == buf.Length && remaining > 0 && buf[..out] == Cut(all, buf.Length - 1)
    }

    constructor (buf: array<char>)
      requires buf.Length > 0
      ensures this.buf == buf && Valid() && all == ""
    {
      this.buf := buf;
      out, remaining, all := 0, buf.Length, "";
    }

    /** `append_token`; a token that does not fit is cut. */
    method AppendToken(token: string) returns (n: nat)
      requires Valid()
      modifies this, buf
      ensures Valid() && all == old(all) + token && out == old(out) + n
    {
      n := if |token| >= remaining then remaining - 1 else |token|;
      CutMore(all, token, buf.Length - 1);
      if n > 0 {
        forall k | 0 <= k < n {
          buf[out + k] := token[k];
        }
        out, remaining := out + n, remaining - n;
        buf[out] := NUL;
      }
      all := all + token;
      assert buf[..out] == old(buf[..out]) + token[..n];
    }
  }

  lemma CutMore(s: string, t: string, room: nat)
    ensures Cut(s + t, room) == Cut(s, room) + Cut(t, room - |Cut(s, room)|)
  {
    if |s| <= room {
      if |s + t| > room {
        assert (s + t)[..room] == s + t[..room - |s|];
      }
    } else {
      assert (s + t)[..room] == s[..room];
    }
  }

  // ---- rendering ----

  /** The text of a token, as the interpreter computes it. */
  method RenderToken(r: Record, t: Token) returns (s: string)
    requires ValidRecord(r)
    ensures s == TokenText(r, t)
  {
    match t {
      case TTime => s := r.time;
      case TLevel => s := LevelName(r.level);
      case TMsg => s := Or(r.message, "(no message)");
      case TThread => s := U32ToA(r.tid);
      case TPid => s := U32ToA(r.pid);
      case TFile => s := Or(r.file, "(unknown)");
      case TLine => s := I32ToA(r.line);
      case TFunc => s := Or(r.func, "(unknown)");
      case TModule => s := Or(r.moduleName, "(unknown)");
      case TTag => s := Or(r.tag, "");
      case TNewline => s := "\n";
      case TTraceId => s := RenderId(r.traceId);
      case TSpanId => s := RenderId(r.spanId);
    }
  }

  method RenderId(id: seq<nat>) returns (s: string)
    requires Bytes(id)
    ensures s == IdText(id)
  {
    s := "";
    var zero := SC.AllZero(id);
    if !zero {
      s := JsonFormat.HexOfId(id);
    }
  }

  method RenderValue(v: KvValue) returns (s: string)
    requires ValidKv(Kv(SP.Absent, v))
    ensures s == KvText(v)
  {
    match v {
      case KvInt(i) => s := I64ToA(i);
      case KvUint(u) => s := U64ToA(u);
      case KvFloat(text) => s := text;
      case KvStr(t) => s := Or(t, "");
      case KvBool(b) => s := if b then "true" else "false";
    }
  }

  /** The attributes behind the tokens. */
  method AppendKvs(o: Output, kvs: seq<Kv>) returns (total: nat)
    requires o.Valid() && forall i :: 0 <= i < |kvs| ==> ValidKv(kvs[i])
    modifies o, o.buf
    ensures o.Valid() && o.all == old(o.all) + KvSuffix(kvs, |kvs|) && o.out == old(o.out) + total
  {
    total := 0;
    for i := 0 to |kvs|
      invariant o.Valid() && o.all == old(o.all) + KvSuffix(kvs, i) && o.out == old(o.out) + total
    {
      if kvs[i].key.Present? {
        var n := AppendKv(o, kvs[i].key.str, kvs[i].value);
        total := total + n;
      }
    }
  }

  method AppendKv(o: Output, key: string, v: KvValue) returns (total: nat)
    requires o.Valid() && ValidKv(Kv(SP.Absent, v))
    modifies o, o.buf
    ensures o.Valid() && o.all == old(o.all) + (" " + key + "=" + KvText(v)) && o.out == old(o.out) + total
  {
    total := o.AppendToken(" ");
    var n := o.AppendToken(key);
    total := total + n;
    n := o.AppendToken("=");
    total := total + n;
    var s := RenderValue(v);
    n := o.AppendToken(s);
    total := total + n;
  }

  class Cache {
    var fmt: string
    const ops: array<Op>
    var opCount: nat

    /** The cached program is that of the cached format string. */
    ghost predicate Valid()
      reads this, ops
    {
      ops.Length == MAX_OPS && opCount < MAX_OPS && |fmt| < MAX_FORMAT_SIZE &&
      IsProgram(Lexed(fmt), ops[..opCount], MAX_OPS - 1)
    }

    /** Thread-local storage starts zeroed: the empty format and no instructions. */
    constructor ()
      ensures Valid() && fresh(ops) && fmt == ""
    {
      fmt, opCount := "", 0;
      ops := new Op[MAX_OPS];
    }

    /** A format that differs from the cached one is copied and compiled. */
    method Lookup(format: string)
      requires Valid()
      modifies this, ops
      ensures Valid() && fmt == Kept(format)
    {
      if format != fmt {
        fmt := Kept(format);
        opCount := Compile(fmt, ops);
      }
    }

    /** The text of one instruction; a literal is read from the cached copy. */
    method OpString(r: Record, op: Op) returns (s: string)
      requires ValidRecord(r) && InFormat(fmt, op)
      ensures s == OpText(fmt, op, Texts(r))
    {
      match op {
        case Literal(start, len) => s := fmt[start..start + len];
        case Field(t) => s := RenderToken(r, t);
      }
    }

    method RunOne(r: Record, o: Output, op: Op) returns (n: nat)
      requires ValidRecord(r) && InFormat(fmt, op) && o.Valid()
      modifies o, o.buf
      ensures o.Valid() && o.all == old(o.all) + OpText(fmt, op, Texts(r)) && o.out == old(o.out) + n
    {
      var s := OpString(r, op);
      n := o.AppendToken(s);
    }

    /** The opcode loop. */
    method Run(r: Record, o: Output) returns (total: nat)
      requires ValidRecord(r) && o.Valid() && o.all == "" && o.buf != ops as object
      requires opCount <= ops.Length && AllInFormat(fmt, ops[..opCount])
      modifies o, o.buf
      ensures o.Valid() && o.out == old(o.out) + total
      ensures o.all == RunTo(fmt, old(ops[..opCount]), opCount, Texts(r))
    {
      ghost var p := ops[..opCount];
      total := 0;
      for i := 0 to opCount
        invariant o.Valid() && o.out == old(o.out) + total
        invariant o.all == RunTo(fmt, p, i, Texts(r))
      {
        assert ops[i] == p[i];
        var n := RunOne(r, o, ops[i]);
        total := total + n;
      }
    }

    /** `format_impl` for a format that is not a mode keyword: whatever was rendered before, the
        buffer gets what fits of the ideal rendering. */
    method Render(r: Record, buf: array<char>, format: string) returns (total: nat)
      requires ValidRecord(r) && Valid() && buf.Length > 0
      requires buf != ops as object
      modifies this, ops, buf
      ensures Valid()
      ensures total < buf.Length && buf[..total] == Cut(Ideal(r, format), buf.Length - 1) && buf[total] == NUL
    {
      Lookup(format);
      var o := new Output(buf);
      ProgramIsSubst(Lexed(fmt), ops[..opCount], MAX_OPS - 1, Texts(r));
      total := Run(r, o);
      var n := AppendKvs(o, r.kvs);
      total := total + n;
      buf[o.out] := NUL;
    }

    method FormatAsJson(r: Record, buf: array<char>) returns (n: int)
      requires ValidRecord(r) && Valid() && buf != ops as object
      modifies buf
      ensures Valid() && JC.Returned(JP.Exec(JsonLineChunks(r), buf.Length), buf, n)
    {
      n := JsonFormat.FormatJson(r, buf);
    }

    method FormatAsOtel(r: Record, env: SP.Text, buf: array<char>) returns (n: int)
      requires ValidRecord(r) && Valid() && buf != ops as object
      modifies buf
      ensures Valid() && JC.Returned(JP.Exec(OtelLineChunks(JsonFormat.WithEnv(r, env)), buf.Length), buf, n)
    {
      n := JsonFormat.FormatOtel(r, env, buf);
    }

    /** `format_impl`: the mode keywords go to the JSON renderers and leave the cache alone. */
    method Format(r: Record, env: SP.Text, buf: array<char>, format: string) returns (n: int)
      requires ValidRecord(r) && Valid() && buf.Length > 0 && buf != ops as object
      modifies this, ops, buf
      ensures Valid() && (IsJson(format) || IsOtel(format) ==> fmt == old(fmt))
      ensures format == "json" || format == "JSON" ==> JC.Returned(JP.Exec(JsonLineChunks(r), buf.Length), buf, n)
      ensures format == "otlp" || format == "OTLP" || format == "otel" || format == "OTEL" ==>
        JC.Returned(JP.Exec(OtelLineChunks(JsonFormat.WithEnv(r, env)), buf.Length), buf, n)
      ensures format !in ["json", "JSON", "otlp", "OTLP", "otel", "OTEL"] ==>
        0 <= n < buf.Length && buf[..n] == Cut(Ideal(r, format), buf.Length - 1) && buf[n] == NUL
    {
      if IsJson(format) {
        n := FormatAsJson(r, buf);
        assert !IsOtel(format);
      } else if IsOtel(format) {
        n := FormatAsOtel(r, env, buf);
      } else {
        n := Render(r, buf, format);
      }
    }
  }

  predicate IsJson(format: string) { format == "json" || format == "JSON" }

  predicate IsOtel(format: string) { format == "otlp" || format == "OTLP" || format == "otel" || format == "OTEL" }

  /** A cache with any history renders like one that was never used. */
  method RenderTwice(cache: Cache, r: Record, format: string, size: nat) returns (cached: string, uncached: string)
    requires cache.Valid() && ValidRecord(r) && size > 0
    modifies cache, cache.ops
    ensures cache.Valid() && cached == uncached
  {
    var b1 := new char[size];
    var n1 := cache.Render(r, b1, format);
    cached := b1[..n1];
    var empty := new Cache();
    var b2 := new char[size];
    var n2 := empty.Render(r, b2, format);
    uncached := b2[..n2];
  }
}
