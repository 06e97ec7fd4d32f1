/** What format strings print, token by token: the text of every token by its name, text without
    tokens as itself, and a format in two parts as its parts. */
module FormatMeaning {
  import opened CStrings
  import opened FastAscii
  import opened FormatProgram
  import opened FormatTokens
  import opened FormatCache
  import opened JsonRecord
  import SC = SpanContext
  import JR = JsonReading
  import JT = JsonText
  import SP = StringPacking

  // ---- one token ----

  lemma TokenAlone(r: Record, t: Token, fmt: string)
    requires ValidRecord(r) && fmt == "%" + Name(t) && |fmt| < MAX_FORMAT_SIZE
    ensures Ideal(r, fmt) == TokenText(r, t) + KvSuffix(r.kvs, |r.kvs|)
  {
    var f := Lexed(fmt);
    assert fmt[1..1 + |Name(t)|] == Name(t);
    assert MatchesAt(fmt, 1, t);
    LexedTokens(fmt, 1, t);
    assert f.toks[1] == Tok(t, |fmt|);
    assert SegCount(f, 0) == 1 by { assert SegEnd(f, 0) == |fmt|; }
    IdealIff(r, fmt);
    assert Subst(f, 0, |fmt|, Texts(r)) == TokenText(r, t) + "";
    assert TokenText(r, t) + "" == TokenText(r, t);
  }

  /** The names of the tokens. */
  predicate Named(t: Token, name: string)
  {
    match t
    case TTime => name == "time"
    case TLevel => name == "level"
    case TMsg => name == "msg"
    case TThread => name == "thread"
    case TPid => name == "pid"
    case TFile => name == "file"
    case TLine => name == "line"
    case TFunc => name == "func"
    case TModule => name == "module"
    case TTag => name == "tag"
    case TNewline => name == "newline"
    case TTraceId => name == "trace_id"
    case TSpanId => name == "span_id"
  }

  lemma NamedIs(t: Token, name: string)
    requires Named(t, name)
    ensures name == Name(t) && |name| <= 8
  {
  }

  /** A string of the record, or the text that stands for a missing one. */
  predicate Prints(out: string, t: SP.Text, missing: string)
  {
    match t
    case Present(s) => out == s
    case Absent => out == missing
  }

  predicate PrintsId(out: string, id: seq<nat>)
  {
    if SC.IsZero(id) then out == "" else JR.IsHexOf(JR.Found(JT.JStr(out)), id)
  }

  /** The number in decimal digits, without leading zeros and with a minus sign when it is negative. */
  predicate PrintsInt(out: string, n: int)
  {
    if n < 0 then out != "" && out[0] == '-' && PrintsNat(out[1..], -n) else PrintsNat(out, n)
  }

  predicate PrintsNat(out: string, n: nat)
  {
    out != "" && AllDigits(out) && Value(out) == n && (|out| > 1 ==> out[0] != '0')
  }

  lemma DecimalPrints(n: int)
    ensures PrintsInt(SignedDecimal(n), n)
  {
    if n < 0 {
      DecimalValue(-n);
      assert ("-" + Decimal(-n))[1..] == Decimal(-n);
    } else {
      DecimalValue(n);
    }
  }

  lemma IdPrints(id: seq<nat>)
    requires Bytes(id)
    ensures PrintsId(IdText(id), id)
  {
    JR.HexTells(id);
  }

  /** What a token is to print of a record. */
  predicate Means(t: Token, out: string, r: Record)
  {
    match t
    case TTime => out == r.time
    case TLevel => JR.IsLevel(JR.Found(JT.JStr(out)), r.level)
    case TMsg => Prints(out, r.message, "(no message)")
    case TThread => PrintsInt(out, r.tid)
    case TPid => PrintsInt(out, r.pid)
    case TFile => Prints(out, r.file, "(unknown)")
    case TLine => PrintsInt(out, r.line)
    case TFunc => Prints(out, r.func, "(unknown)")
    case TModule => Prints(out, r.moduleName, "(unknown)")
    case TTag => Prints(out, r.tag, "")
    case TNewline => out == "\n"
    case TTraceId => PrintsId(out, r.traceId)
    case TSpanId => PrintsId(out, r.spanId)
  }

  lemma TextMeans(r: Record, t: Token)
    requires ValidRecord(r)
    ensures Means(t, TokenText(r, t), r)
  {
    match t {
      case TThread => DecimalPrints(r.tid);
      case TPid => DecimalPrints(r.pid);
      case TLine => DecimalPrints(r.line);
      case TTraceId => IdPrints(r.traceId);
      case TSpanId => IdPrints(r.spanId);
      case _ =>
    }
  }

  /** Every token, by its name, prints its part of the record. */
  lemma TokenPrints(r: Record, t: Token, name: string)
    requires ValidRecord(r) && r.kvs == [] && Named(t, name)
    ensures Means(t, Ideal(r, "%" + name), r)
  {
    NamedIs(t, name);
    TokenAlone(r, t, "%" + name);
    TextMeans(r, t);
    assert TokenText(r, t) + "" == TokenText(r, t);
  }

  // ---- attributes ----

  predicate PrintsValue(out: string, v: KvValue)
  {
    match v
    case KvInt(i) => PrintsInt(out, i)
    case KvUint(u) => PrintsInt(out, u)
    case KvFloat(text) => out == text
    case KvStr(Present(s)) => out == s
    case KvStr(Absent) => out == ""
    case KvBool(b) => out == if b then "true" else "false"
  }

  lemma ValuePrints(v: KvValue)
    ensures PrintsValue(KvText(v), v)
  {
    match v {
      case KvInt(i) => DecimalPrints(i);
      case KvUint(u) => DecimalPrints(u);
      case _ =>
    }
  }

  lemma {:induction false} SuffixOfFirst(kvs: seq<Kv>, n: nat, kv: Kv)
    requires n <= |kvs|
    ensures KvSuffix(kvs + [kv], n) == KvSuffix(kvs, n)
  {
    if n == 0 {
    } else {
      SuffixOfFirst(kvs, n - 1, kv);
    }
  }

  lemma {:induction false} SameSubst(f: Format, i: nat, j: nat, a: Token -> string, b: Token -> string)
    requires f.Valid() && i <= j <= |f.str| && forall t :: a(t) == b(t)
    ensures Subst(f, i, j, a) == Subst(f, i, j, b)
    decreases j - i
  {
    if i == j {
    } else if f.str[i] == '%' && f.toks[i + 1].Tok? && f.toks[i + 1].end <= j {
      SameSubst(f, f.toks[i + 1].end, j, a, b);
    } else {
      SameSubst(f, i + 1, j, a, b);
    }
  }

  /** One more attribute adds a blank, its key, an equals sign and its value at the end; an
      attribute without a key adds nothing. */
  lemma AttributePrints(r: Record, fmt: string, kv: Kv) returns (value: string)
    requires ValidRecord(r) && ValidKv(kv)
    ensures PrintsValue(value, kv.value)
    ensures Ideal(r.(kvs := r.kvs + [kv]), fmt) ==
            Ideal(r, fmt) + if kv.key.Present? then " " + kv.key.str + "=" + value else ""
  {
    value := KvText(kv.value);
    ValuePrints(kv.value);
    var s, n := r.(kvs := r.kvs + [kv]), |r.kvs|;
    SuffixOfFirst(r.kvs, n, kv);
    var more := if kv.key.Present? then " " + kv.key.str + "=" + value else "";
    assert KvSuffix(s.kvs, n + 1) == KvSuffix(r.kvs, n) + more;
    var f := Lexed(Kept(fmt));
    var j := Covered(f, 0, MAX_OPS - 1);
    SameSubst(f, 0, j, Texts(r), Texts(s));
    Regroup(Subst(f, 0, j, Texts(r)), KvSuffix(r.kvs, n), more);
  }

  // ---- formats in two parts ----

  /** What follows cannot continue the name of a token. */
  predicate Apart(b: string) { b == "" || (!IsAlpha(b[0]) && b[0] != '_') }

  lemma NameLetter(t: Token, k: nat)
    requires k < |Name(t)|
    ensures IsAlpha(Name(t)[k]) || Name(t)[k] == '_'
  {
  }

  lemma MatchLetter(s: string, i: nat, t: Token, k: nat)
    requires MatchesAt(s, i, t) && k < |Name(t)|
    ensures i + k < |s| && (IsAlpha(s[i + k]) || s[i + k] == '_')
  {
    NameLetter(t, k);
    assert s[i..i + |Name(t)|][k] == s[i + k];
  }

  lemma StandsInFirst(a: string, b: string, i: nat, name: string)
    requires i + |name| <= |a| && Apart(b)
    ensures StandsAt(a + b, i, name) <==> StandsAt(a, i, name)
  {
    assert (a + b)[i..i + |name|] == a[i..i + |name|];
  }

  lemma MatchInFirst(a: string, b: string, i: nat, t: Token)
    requires i <= |a| && Apart(b)
    ensures MatchesAt(a + b, i, t) <==> MatchesAt(a, i, t)
  {
    if i + |Name(t)| <= |a| {
      StandsInFirst(a, b, i, Name(t));
    } else if MatchesAt(a + b, i, t) {
      MatchLetter(a + b, i, t, |a| - i);
    }
  }

  lemma StandsInSecond(a: string, b: string, i: nat, name: string)
    requires i <= |b|
    ensures StandsAt(a + b, |a| + i, name) <==> StandsAt(b, i, name)
  {
    var n := |name|;
    if i + n <= |b| {
      assert (a + b)[|a| + i..|a| + i + n] == b[i..i + n];
    }
  }

  /** Token x at i is token y at j, d characters later. */
  predicate Moved(x: Found, y: Found, d: nat)
  {
    if y.NoToken? then x.NoToken? else x == Tok(y.t, y.end + d)
  }

  lemma TokenEnds(s: string, i: nat)
    requires i <= |s|
    ensures var x := Lexed(s).toks[i]; x.Tok? ==> x.end == i + |Name(x.t)|
  {
    LexTableAt(s, |s| + 1, i);
  }

  lemma SameTok(s: string, i: nat, u: string, j: nat, t: Token)
    requires i <= |s| && j <= |u| && (MatchesAt(s, i, t) <==> MatchesAt(u, j, t))
    ensures Lexed(s).toks[i] == Tok(t, i + |Name(t)|) <==> Lexed(u).toks[j] == Tok(t, j + |Name(t)|)
  {
    LexedTokens(s, i, t);
    LexedTokens(u, j, t);
  }

  lemma BothTok(x: Found, y: Found, i: nat, j: nat)
    requires j <= i && (x.Tok? ==> x.end == i + |Name(x.t)|) && (y.Tok? ==> y.end == j + |Name(y.t)|)
    requires forall t :: x == Tok(t, i + |Name(t)|) <==> y == Tok(t, j + |Name(t)|)
    ensures Moved(x, y, i - j)
  {
    assert x.Tok? ==> x == Tok(x.t, i + |Name(x.t)|);
    assert y.Tok? ==> y == Tok(y.t, j + |Name(y.t)|);
  }

  /** The token at a position of the whole is the one of the part. */
  lemma TokenInFirst(a: string, b: string, i: nat)
    requires i <= |a| && Apart(b)
    ensures Moved(Lexed(a + b).toks[i], Lexed(a).toks[i], 0)
  {
    var x, y := Lexed(a + b).toks[i], Lexed(a).toks[i];
    TokenEnds(a + b, i);
    TokenEnds(a, i);
    forall t ensures x == Tok(t, i + |Name(t)|) <==> y == Tok(t, i + |Name(t)|) {
      FirstTok(a, b, i, t);
    }
    BothTok(x, y, i, i);
  }

  lemma FirstTok(a: string, b: string, i: nat, t: Token)
    requires i <= |a| && Apart(b)
    ensures Lexed(a + b).toks[i] == Tok(t, i + |Name(t)|) <==> Lexed(a).toks[i] == Tok(t, i + |Name(t)|)
  {
    MatchInFirst(a, b, i, t);
    SameTok(a + b, i, a, i, t);
  }

  lemma TokenInSecond(a: string, b: string, i: nat)
    requires i <= |b|
    ensures Moved(Lexed(a + b).toks[|a| + i], Lexed(b).toks[i], |a|)
  {
    var j := |a| + i;
    var x, y := Lexed(a + b).toks[j], Lexed(b).toks[i];
    TokenEnds(a + b, j);
    TokenEnds(b, i);
    forall t ensures x == Tok(t, j + |Name(t)|) <==> y == Tok(t, i + |Name(t)|) {
      SecondTok(a, b, i, j, t);
    }
    BothTok(x, y, j, i);
  }

  lemma SecondTok(a: string, b: string, i: nat, j: nat, t: Token)
    requires i <= |b| && j == |a| + i
    ensures Lexed(a + b).toks[j] == Tok(t, j + |Name(t)|) <==> Lexed(b).toks[i] == Tok(t, i + |Name(t)|)
  {
    StandsInSecond(a, b, i, Name(t));
    SameTok(a + b, j, b, i, t);
  }

  /** Where direct substitution goes on behind position i, and what it prints there. */
  function NextAt(f: Format, i: nat): (n: nat)
    requires f.Valid() && i < |f.str|
    ensures i < n <= |f.str|
  {
    if f.str[i] == '%' && f.toks[i + 1].Tok? then f.toks[i + 1].end else i + 1
  }

  function TextAt(f: Format, i: nat, text: Token -> string): string
    requires f.Valid() && i < |f.str|
  {
    if f.str[i] == '%' && f.toks[i + 1].Tok? then text(f.toks[i + 1].t) else [f.str[i]]
  }

  lemma SubstNext(f: Format, i: nat, text: Token -> string)
    requires f.Valid() && i < |f.str|
    ensures Subst(f, i, |f.str|, text) == TextAt(f, i, text) + Subst(f, NextAt(f, i), |f.str|, text)
  {
  }

  /** g is the end of f behind d characters, tokens included. */
  ghost predicate EndsIn(f: Format, g: Format, d: nat)
  {
    && f.Valid() && g.Valid() && |f.str| == d + |g.str|
    && (forall k :: 0 <= k < |g.str| ==> g.str[k] == f.str[d + k])
    && forall k :: 0 <= k <= |g.str| ==> Moved(f.toks[d + k], g.toks[k], d)
  }

  lemma {:induction false} SubstSecond(f: Format, g: Format, d: nat, i: nat, text: Token -> string)
    requires EndsIn(f, g, d) && i <= |g.str|
    ensures Subst(f, d + i, |f.str|, text) == Subst(g, i, |g.str|, text)
    decreases |g.str| - i
  {
    if i == |g.str| {
    } else {
      assert Moved(f.toks[d + (i + 1)], g.toks[i + 1], d);
      SubstNext(f, d + i, text);
      SubstNext(g, i, text);
      SubstSecond(f, g, d, NextAt(g, i), text);
    }
  }

  /** e is the beginning of f, tokens included. */
  ghost predicate BeginsWith(f: Format, e: Format)
  {
    && f.Valid() && e.Valid() && |e.str| <= |f.str|
    && (forall k :: 0 <= k < |e.str| ==> e.str[k] == f.str[k])
    && forall k :: 0 <= k <= |e.str| ==> Moved(f.toks[k], e.toks[k], 0)
  }

  lemma {:induction false} SubstFirst(f: Format, e: Format, i: nat, text: Token -> string)
    requires BeginsWith(f, e) && i <= |e.str|
    ensures Subst(f, i, |f.str|, text) == Subst(e, i, |e.str|, text) + Subst(f, |e.str|, |f.str|, text)
    decreases |e.str| - i
  {
    var rest := Subst(f, |e.str|, |f.str|, text);
    if i == |e.str| {
      assert "" + rest == rest;
    } else {
      assert Moved(f.toks[i + 1], e.toks[i + 1], 0);
      SubstNext(f, i, text);
      SubstNext(e, i, text);
      SubstFirst(f, e, NextAt(e, i), text);
      Regroup(TextAt(e, i, text), Subst(e, NextAt(e, i), |e.str|, text), rest);
    }
  }

  lemma SubstParts(a: string, b: string, text: Token -> string)
    requires Apart(b)
    ensures Subst(Lexed(a + b), 0, |a + b|, text) == Subst(Lexed(a), 0, |a|, text) + Subst(Lexed(b), 0, |b|, text)
  {
    var f, e, g := Lexed(a + b), Lexed(a), Lexed(b);
    assert BeginsWith(f, e) by {
      forall k | 0 <= k <= |a| ensures Moved(f.toks[k], e.toks[k], 0) {
        TokenInFirst(a, b, k);
      }
    }
    assert EndsIn(f, g, |a|) by {
      forall k | 0 <= k <= |b| ensures Moved(f.toks[|a| + k], g.toks[k], |a|) {
        TokenInSecond(a, b, k);
      }
    }
    SubstFirst(f, e, 0, text);
    SubstSecond(f, g, |a|, 0, text);
  }

  /** The format is kept and compiled as a whole. */
  ghost predicate Whole(fmt: string)
  {
    |fmt| < MAX_FORMAT_SIZE && SegCount(Lexed(fmt), 0) < MAX_OPS
  }

  /** A format in two parts, of which the second does not continue a name, prints what its parts
      print. */
  lemma PartsPrint(r: Record, a: string, b: string)
    requires Apart(b) && Whole(a) && Whole(b) && Whole(a + b) && r.kvs == []
    ensures Ideal(r, a + b) == Ideal(r, a) + Ideal(r, b)
  {
    IdealIff(r, a);
    IdealIff(r, b);
    IdealIff(r, a + b);
    SubstParts(a, b, Texts(r));
    assert r.kvs == [] ==> KvSuffix(r.kvs, |r.kvs|) == "";
  }

  lemma {:induction false} PlainSubst(f: Format, i: nat, text: Token -> string)
    requires f.Valid() && i <= |f.str|
    requires forall k :: i <= k < |f.str| ==> f.str[k] != '%' || f.toks[k + 1].NoToken?
    ensures Subst(f, i, |f.str|, text) == f.str[i..]
    decreases |f.str| - i
  {
    if i == |f.str| {
    } else {
      PlainSubst(f, i + 1, text);
      assert f.str[i..] == [f.str[i]] + f.str[i + 1..];
    }
  }

  /** No token stands at position i. */
  ghost predicate NoMatch(s: string, i: nat)
  {
    forall t :: !MatchesAt(s, i, t)
  }

  lemma NoMatchNoToken(s: string, i: nat)
    requires i <= |s| && NoMatch(s, i)
    ensures Lexed(s).toks[i].NoToken?
  {
    var x := Lexed(s).toks[i];
    TokenEnds(s, i);
    if x.Tok? {
      LexedTokens(s, i, x.t);
    }
  }

  /** No percent sign begins a token. */
  ghost predicate NoTokens(fmt: string)
  {
    forall k :: 0 <= k < |fmt| && fmt[k] == '%' ==> NoMatch(fmt, k + 1)
  }

  lemma NoTokenAt(fmt: string, k: nat)
    requires NoTokens(fmt) && k < |fmt| && fmt[k] == '%'
    ensures Lexed(fmt).toks[k + 1].NoToken?
  {
    NoMatchNoToken(fmt, k + 1);
  }

  lemma NoTokensSubst(fmt: string, text: Token -> string)
    requires NoTokens(fmt)
    ensures Subst(Lexed(fmt), 0, |fmt|, text) == fmt
  {
    var f := Lexed(fmt);
    forall k | 0 <= k < |f.str| ensures f.str[k] != '%' || f.toks[k + 1].NoToken? {
      if f.str[k] == '%' {
        NoTokenAt(fmt, k);
      }
    }
    PlainSubst(f, 0, text);
    assert fmt[0..] == fmt;
  }

  /** A format without tokens prints itself, also where it holds percent signs. */
  lemma NoTokensPrint(r: Record, fmt: string)
    requires Whole(fmt) && r.kvs == [] && NoTokens(fmt)
    ensures Ideal(r, fmt) == fmt
  {
    IdealIff(r, fmt);
    NoTokensSubst(fmt, Texts(r));
    assert fmt + "" == fmt;
  }

  /** A format that is too long prints like its first 1023 bytes. */
  lemma LongPrints(r: Record, fmt: string)
    requires |fmt| >= 1024
    ensures Ideal(r, fmt) == Ideal(r, fmt[..1023])
  {
    assert Kept(fmt) == fmt[..1023] == Kept(fmt[..1023]);
  }
}
