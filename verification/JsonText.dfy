/** JSON as in RFC 8259 without insignificant white space: objects (section 4), numbers
    (section 6), strings (section 7) and booleans; a printer and a parser.  Strings are byte
    strings, one character a byte; numbers are kept as they are written. */
module JsonText {
  import opened CStrings
  import opened FastAscii

  type NumberText = s: string | s != "" witness "0"

  datatype Json =
    | JStr(s: string)
    | JNum(text: NumberText)
    | JBool(b: bool)
    | JObj(members: Members)

  datatype Members = JNil | JCons(key: string, value: Json, rest: Members)

  // ---- strings ----

  function HexDigit(d: nat): (c: char)
    requires d < 16
  {
    if d < 10 then '0' + d as char else 'a' + (d - 10) as char
  }

  function HexValue(c: char): (d: int)
    ensures d == -1 || 0 <= d < 16
  {
    if '0' <= c <= '9' then c as int - '0' as int
    else if 'a' <= c <= 'f' then c as int - 'a' as int + 10
    else if 'A' <= c <= 'F' then c as int - 'A' as int + 10
    else -1
  }

  lemma HexRoundTrip(d: nat)
    requires d < 16
    ensures HexValue(HexDigit(d)) == d
  {
  }

  /** Bytes with a short escape. */
  predicate IsShort(c: char)
  {
    c == '"' || c == '\\' || c == '\n' || c == '\r' || c == '\t' || c as int == 8 || c as int == 12
  }

  /** Control bytes without a short escape. */
  predicate IsRawControl(c: char)
  {
    c < ' ' && !IsShort(c)
  }

  /** What stands behind the backslash of a short escape. */
  function ShortEscape(c: char): char
    requires IsShort(c)
  {
    if c as int == 8 then 'b'
    else if c as int == 12 then 'f'
    else if c == '\n' then 'n'
    else if c == '\r' then 'r'
    else if c == '\t' then 't'
    else c
  }

  /** The escape of one byte: a short escape, \u00XX, or the byte itself. */
  function Esc(c: char): (e: string)
    ensures |e| == 1 || |e| == 2 || (|e| == 6 && IsRawControl(c))
  {
    if IsShort(c) then ['\\', ShortEscape(c)]
    else if c < ' ' then ControlEsc(c as nat)
    else [c]
  }

  function ControlEsc(n: nat): (e: string)
    requires n < 32
    ensures |e| == 6
  {
    if n < 16 then "\\u000" + [HexDigit(n)] else "\\u001" + [HexDigit(n - 16)]
  }

  /** The escape of the first n bytes of s. */
  function EscTo(s: string, n: nat): string
    requires n <= |s|
  {
    if n == 0 then [] else EscTo(s, n - 1) + Esc(s[n - 1])
  }

  function Escaped(s: string): string { EscTo(s, |s|) }

  lemma {:induction false} EscToPrefix(s: string, n: nat, m: nat)
    requires n <= m <= |s|
    ensures EscTo(s[..m], n) == EscTo(s, n)
  {
    if n == 0 {
    } else {
      EscToPrefix(s, n - 1, m);
    }
  }

  lemma EscapedCut(s: string, n: nat)
    requires n <= |s|
    ensures Escaped(s[..n]) == EscTo(s, n)
  {
    EscToPrefix(s, n, n);
  }

  // ---- printing ----

  function Render(v: Json): string
    decreases v
  {
    match v
    case JStr(s) => "\"" + Escaped(s) + "\""
    case JNum(text) => text
    case JBool(b) => if b then "true" else "false"
    case JObj(ms) => "{" + RenderMembers(true, ms) + "}"
  }

  function KeyText(first: bool, key: string): string
  {
    (if first then "\"" else ",\"") + Escaped(key) + "\":"
  }

  function RenderMembers(first: bool, ms: Members): string
    decreases ms
  {
    match ms
    case JNil => ""
    case JCons(k, v, rest) => KeyText(first, k) + (Render(v) + RenderMembers(false, rest))
  }

  /** All numbers are numbers. */
  predicate ValidJson(v: Json)
    decreases v
  {
    (v.JNum? ==> IsNumber(v.text)) && (v.JObj? ==> ValidMembers(v.members))
  }

  predicate ValidMembers(ms: Members)
    decreases ms
  {
    ms.JCons? ==> ValidJson(ms.value) && ValidMembers(ms.rest)
  }

  // ---- parsing ----

  datatype Parsed<T> = Bad | Good(value: T, next: nat)

  /** The byte the escape at position i (just behind the backslash) stands for. */
  function ParseEscape(t: string, i: nat): (r: Parsed<char>)
    ensures r.Good? ==> i < r.next <= |t|
  {
    if i >= |t| then Bad
    else
      match t[i]
      case '"' => Good('"', i + 1)
      case '\\' => Good('\\', i + 1)
      case '/' => Good('/', i + 1)
      case 'b' => Good(8 as char, i + 1)
      case 'f' => Good(12 as char, i + 1)
      case 'n' => Good('\n', i + 1)
      case 'r' => Good('\r', i + 1)
      case 't' => Good('\t', i + 1)
      case 'u' =>
        if i + 5 <= |t| && t[i + 1] == '0' && t[i + 2] == '0' && HexValue(t[i + 3]) >= 0 && HexValue(t[i + 4]) >= 0
        then Good((16 * HexValue(t[i + 3]) + HexValue(t[i + 4])) as char, i + 5)
        else Bad
      case _ => Bad
  }

  /** The byte that position i of a string stands for, escaped or not. */
  function ParseChar(t: string, i: nat): (r: Parsed<char>)
    requires i < |t|
    ensures r.Good? ==> i < r.next <= |t|
  {
    if t[i] < ' ' then Bad else if t[i] == '\\' then ParseEscape(t, i + 1) else Good(t[i], i + 1)
  }

  /** The string from position i (just behind the opening quote), after `acc`. */
  function ParseString(t: string, i: nat, acc: string): (r: Parsed<string>)
    ensures r.Good? ==> i < r.next <= |t|
    decreases |t| - i
  {
    if i >= |t| then Bad
    else if t[i] == '"' then Good(acc, i + 1)
    else
      var c := ParseChar(t, i);
      if c.Bad? then Bad else ParseString(t, c.next, acc + [c.value])
  }

  /** Where the run of digits that starts at i ends. */
  function DigitsEnd(t: string, i: nat): (j: nat)
    requires i <= |t|
    ensures i <= j <= |t| && forall k :: i <= k < j ==> IsDigit(t[k])
    decreases |t| - i
  {
    if i < |t| && IsDigit(t[i]) then DigitsEnd(t, i + 1) else i
  }

  /** Where the number that starts at i ends, or -1: an integer without leading zeros, a
      fraction and an exponent, the last two optional. */
  function NumberEnd(t: string, i: nat): (j: int)
    ensures j == -1 || i < j <= |t|
  {
    var start := if i < |t| && t[i] == '-' then i + 1 else i;
    if start >= |t| then -1
    else
      var end := DigitsEnd(t, start);
      if end == start || (t[start] == '0' && end > start + 1) then -1 else FractionEnd(t, end)
  }

  function FractionEnd(t: string, i: nat): (j: int)
    requires i <= |t|
    ensures j == -1 || i <= j <= |t|
  {
    if i < |t| && t[i] == '.' then
      var end := DigitsEnd(t, i + 1);
      if end == i + 1 then -1 else ExponentEnd(t, end)
    else ExponentEnd(t, i)
  }

  function ExponentEnd(t: string, i: nat): (j: int)
    requires i <= |t|
    ensures j == -1 || i <= j <= |t|
  {
    if i < |t| && (t[i] == 'e' || t[i] == 'E') then
      var start := if i + 1 < |t| && (t[i + 1] == '+' || t[i + 1] == '-') then i + 2 else i + 1;
      var end := DigitsEnd(t, start);
      if end == start then -1 else end
    else i
  }

  /** The text is a number of section 6. */
  predicate IsNumber(text: string) { NumberEnd(text, 0) == |text| }

  function ParseNumber(t: string, i: nat): (r: Parsed<string>)
    ensures r.Good? ==> i < r.next <= |t| && r.value != ""
  {
    var end := NumberEnd(t, i);
    if end < 0 then Bad else Good(t[i..end], end)
  }

  predicate Looks(t: string, i: nat, u: string)
  {
    i + |u| <= |t| && forall k {:trigger u[k]} :: 0 <= k < |u| ==> t[i + k] == u[k]
  }

  function ParseValue(t: string, i: nat): (r: Parsed<Json>)
    ensures r.Good? ==> i < r.next <= |t|
    decreases |t| - i, 0
  {
    if i >= |t| then Bad
    else if t[i] == '"' then
      var s := ParseString(t, i + 1, "");
      if s.Bad? then Bad else Good(JStr(s.value), s.next)
    else if t[i] == '{' then
      if i + 1 < |t| && t[i + 1] == '}' then Good(JObj(JNil), i + 2)
      else
        var ms := ParseMembers(t, i + 1);
        if ms.Bad? then Bad else Good(JObj(ms.value), ms.next)
    else if Looks(t, i, "true") then Good(JBool(true), i + 4)
    else if Looks(t, i, "false") then Good(JBool(false), i + 5)
    else
      var n := ParseNumber(t, i);
      if n.Bad? then Bad else Good(JNum(n.value), n.next)
  }

  /** One or more members from position i up to and including the closing brace. */
  function ParseMembers(t: string, i: nat): (r: Parsed<Members>)
    ensures r.Good? ==> i < r.next <= |t|
    decreases |t| - i, 3
  {
    if i >= |t| || t[i] != '"' then Bad
    else
      var k := ParseString(t, i + 1, "");
      if k.Bad? || k.next >= |t| || t[k.next] != ':' then Bad
      else ParseMember(t, k.value, k.next + 1)
  }

  /** The value of `key` and the members behind it. */
  function ParseMember(t: string, key: string, i: nat): (r: Parsed<Members>)
    ensures r.Good? ==> i < r.next <= |t|
    decreases |t| - i, 2
  {
    var v := ParseValue(t, i);
    if v.Bad? || v.next >= |t| then Bad else ParseMore(t, key, v.value, v.next)
  }

  function ParseMore(t: string, key: string, value: Json, i: nat): (r: Parsed<Members>)
    requires i < |t|
    ensures r.Good? ==> i < r.next <= |t|
    decreases |t| - i, 1
  {
    if t[i] == '}' then Good(JCons(key, value, JNil), i + 1)
    else if t[i] != ',' then Bad
    else
      var rest := ParseMembers(t, i + 1);
      if rest.Bad? then Bad else Good(JCons(key, value, rest.value), rest.next)
  }

  /** The whole text is one JSON value. */
  function Parse(t: string): Parsed<Json>
  {
    var r := ParseValue(t, 0);
    if r.Good? && r.next == |t| then r else Bad
  }

  // ---- reading back what was printed ----

  lemma LooksSplit(t: string, i: nat, a: string, b: string)
    requires Looks(t, i, a + b)
    ensures Looks(t, i, a) && Looks(t, i + |a|, b)
  {
    forall k | 0 <= k < |a| ensures t[i + k] == a[k] {
      assert (a + b)[k] == a[k];
    }
    forall k | 0 <= k < |b| ensures t[i + |a| + k] == b[k] {
      assert t[i + (|a| + k)] == (a + b)[|a| + k];
    }
  }

  lemma LooksChar(t: string, i: nat, u: string)
    requires Looks(t, i, u) && u != []
    ensures t[i] == u[0]
  {
    assert t[i + 0] == u[0];
  }

  /** The parser reads the escape of a byte as that byte. */
  lemma ParseOneEscape(t: string, i: nat, c: char)
    requires Looks(t, i, Esc(c))
    ensures t[i] != '"' && ParseChar(t, i) == Good(c, i + |Esc(c)|)
  {
    var e := Esc(c);
    assert t[i + 0] == e[0];
    if |e| == 2 {
      assert t[i + 1] == e[1];
      assert ParseEscape(t, i + 1) == Good(c, i + 2);
    } else if |e| == 6 {
      assert t[i + 1] == e[1] && t[i + 2] == e[2] && t[i + 3] == e[3] && t[i + 4] == e[4] && t[i + 5] == e[5];
      HexRoundTrip(if c as nat < 16 then c as nat else c as nat - 16);
      assert ParseEscape(t, i + 1) == Good(c, i + 6);
    }
  }

  lemma ParseClosingQuote(t: string, i: nat, acc: string)
    requires Looks(t, i, "\"")
    ensures ParseString(t, i, acc) == Good(acc, i + 1)
  {
    LooksChar(t, i, "\"");
  }

  /** Position m holds byte c, escaped or not, and n is the position behind it. */
  predicate CharAt(t: string, m: nat, c: char, n: nat)
  {
    m < |t| && t[m] != '"' && ParseChar(t, m) == Good(c, n)
  }

  /** s is spelled at the given positions. */
  predicate Spells(t: string, at: seq<nat>, s: string)
  {
    |at| == |s| + 1 && forall k :: 0 <= k < |s| ==> CharAt(t, at[k], s[k], at[k + 1])
  }

  /** The parser reads what is spelled. */
  lemma {:induction false} ParseSpelled(t: string, at: seq<nat>, s: string, k: nat)
    requires Spells(t, at, s) && k <= |s|
    ensures ParseString(t, at[0], "") == ParseString(t, at[k], s[..k])
  {
    if k == 0 {
    } else {
      ParseSpelled(t, at, s, k - 1);
      ParseOneChar(t, at[k - 1], s[k - 1], at[k], s[..k - 1]);
      assert s[..k - 1] + [s[k - 1]] == s[..k];
    }
  }

  lemma ParseOneChar(t: string, i: nat, c: char, n: nat, acc: string)
    requires CharAt(t, i, c, n)
    ensures ParseString(t, i, acc) == ParseString(t, n, acc + [c])
  {
  }

  lemma {:induction false} LooksEsc(t: string, i: nat, s: string, n: nat, k: nat)
    requires k < n <= |s| && Looks(t, i, EscTo(s, n))
    ensures Looks(t, i + |EscTo(s, k)|, Esc(s[k])) && |EscTo(s, k + 1)| == |EscTo(s, k)| + |Esc(s[k])|
    decreases n
  {
    LooksSplit(t, i, EscTo(s, n - 1), Esc(s[n - 1]));
    if k < n - 1 {
      LooksEsc(t, i, s, n - 1, k);
    }
  }

  lemma SpellsByte(t: string, i: nat, s: string, k: nat)
    requires k < |s| && Looks(t, i, Escaped(s))
    ensures CharAt(t, i + |EscTo(s, k)|, s[k], i + |EscTo(s, k + 1)|)
  {
    var m, n := i + |EscTo(s, k)|, i + |EscTo(s, k + 1)|;
    assert Looks(t, m, Esc(s[k])) && n == m + |Esc(s[k])| by { LooksEsc(t, i, s, |s|, k); }
    EscapeIsChar(t, m, s[k], n);
  }

  lemma EscapeIsChar(t: string, m: nat, c: char, n: nat)
    requires Looks(t, m, Esc(c)) && n == m + |Esc(c)|
    ensures CharAt(t, m, c, n)
  {
    ParseOneEscape(t, m, c);
  }

  /** A printed string is spelled behind the escapes of its prefixes. */
  lemma PrintedSpells(t: string, i: nat, s: string) returns (at: seq<nat>)
    requires Looks(t, i, Escaped(s))
    ensures Spells(t, at, s) && at[0] == i && at[|s|] == i + |Escaped(s)|
  {
    at := seq(|s| + 1, k requires 0 <= k <= |s| => i + |EscTo(s, k)|);
    forall k | 0 <= k < |s| ensures CharAt(t, at[k], s[k], at[k + 1]) {
      SpellsByte(t, i, s, k);
    }
  }

  /** A printed string followed by a quote is read back. */
  lemma ParsePrintedString(t: string, i: nat, s: string)
    requires Looks(t, i, Escaped(s) + "\"")
    ensures ParseString(t, i, "") == Good(s, i + |Escaped(s)| + 1)
  {
    LooksSplit(t, i, Escaped(s), "\"");
    var at := PrintedSpells(t, i, s);
    ParseSpelled(t, at, s, |s|);
    assert s[..|s|] == s;
    ParseClosingQuote(t, i + |Escaped(s)|, s);
  }

  lemma {:induction false} DigitsEndAt(t: string, i: nat, j: nat)
    requires i <= j <= |t| && (forall k :: i <= k < j ==> IsDigit(t[k])) && (j < |t| ==> !IsDigit(t[j]))
    ensures DigitsEnd(t, i) == j
    decreases j - i
  {
    if i == j {
    } else {
      DigitsEndAt(t, i + 1, j);
    }
  }

  // ---- numbers ----

  /** What follows does not continue the number. */
  predicate EndsNumber(t: string, j: nat)
  {
    j < |t| ==> !IsDigit(t[j]) && t[j] != '.' && t[j] != 'e' && t[j] != 'E' && t[j] != '+' && t[j] != '-'
  }

  /** Digits end at the same place in a text that contains u. */
  lemma {:induction false} DigitsShift(t: string, i: nat, u: string, a: nat)
    requires Looks(t, i, u) && EndsNumber(t, i + |u|) && a <= |u|
    ensures DigitsEnd(t, i + a) == i + DigitsEnd(u, a)
    decreases |u| - a
  {
    if a == |u| {
    } else {
      assert t[i + a] == u[a];
      DigitsShift(t, i, u, a + 1);
    }
  }

  lemma ExponentShift(t: string, i: nat, u: string, a: nat)
    requires Looks(t, i, u) && EndsNumber(t, i + |u|) && a <= |u| && ExponentEnd(u, a) == |u|
    ensures ExponentEnd(t, i + a) == i + |u|
  {
    if a < |u| {
      assert t[i + a] == u[a];
      var start := if a + 1 < |u| && (u[a + 1] == '+' || u[a + 1] == '-') then a + 2 else a + 1;
      if a + 1 < |u| {
        assert t[i + (a + 1)] == u[a + 1];
      }
      DigitsShift(t, i, u, start);
    }
  }

  lemma FractionShift(t: string, i: nat, u: string, a: nat)
    requires Looks(t, i, u) && EndsNumber(t, i + |u|) && a <= |u| && FractionEnd(u, a) == |u|
    ensures FractionEnd(t, i + a) == i + |u|
  {
    if a < |u| {
      assert t[i + a] == u[a];
      if u[a] == '.' {
        DigitsShift(t, i, u, a + 1);
        ExponentShift(t, i, u, DigitsEnd(u, a + 1));
      } else {
        ExponentShift(t, i, u, a);
      }
    }
  }

  lemma NumberShift(t: string, i: nat, u: string)
    requires u != "" && IsNumber(u) && Looks(t, i, u) && EndsNumber(t, i + |u|)
    ensures NumberEnd(t, i) == i + |u| && (t[i] == '-' || IsDigit(t[i]))
  {
    assert t[i + 0] == u[0];
    var start := if u[0] == '-' then 1 else 0;
    assert t[i + start] == u[start];
    assert DigitsEnd(t, i + start) == i + DigitsEnd(u, start) by { DigitsShift(t, i, u, start); }
    FractionShift(t, i, u, DigitsEnd(u, start));
  }

  /** A printed number is read back. */
  lemma ParsePrintedNumber(t: string, i: nat, u: string)
    requires u != "" && IsNumber(u) && Looks(t, i, u) && EndsNumber(t, i + |u|)
    ensures ParseNumber(t, i) == Good(u, i + |u|) && (t[i] == '-' || IsDigit(t[i]))
  {
    NumberShift(t, i, u);
    assert t[i..i + |u|] == u;
  }

  /** The JSON form of an integer. */
  function JInt(n: int): Json
  {
    JNum(SignedDecimal(n))
  }

  /** The value of an integer text. */
  function IntValue(u: string): int
  {
    var digits := if AllDigits(u) then u else if u != "" && AllDigits(u[1..]) then u[1..] else "";
    var n: int := Value(digits);
    if digits == u then n else -n
  }

  lemma NatIsNumber(n: nat)
    ensures NumberEnd(Decimal(n), 0) == |Decimal(n)|
  {
    var d := Decimal(n);
    DecimalValue(n);
    assert IsDigit(d[0]);
    DigitsEndAt(d, 0, |d|);
  }

  lemma NegativeIsNumber(n: nat)
    requires n > 0
    ensures NumberEnd("-" + Decimal(n), 0) == |"-" + Decimal(n)|
  {
    var d, u := Decimal(n), "-" + Decimal(n);
    DecimalValue(n);
    assert u[1] == d[0] && IsDigit(d[0]);
    forall k | 1 <= k < |u| ensures IsDigit(u[k]) {
      assert u[k] == d[k - 1];
    }
    DigitsEndAt(u, 1, |u|);
  }

  /** Every integer prints as a number, from which it is read back exactly. */
  lemma IntIsNumber(n: int)
    ensures IsNumber(SignedDecimal(n)) && IntValue(SignedDecimal(n)) == n
  {
    if n < 0 {
      var u := "-" + Decimal(-n);
      NegativeIsNumber(-n);
      DecimalValue(-n);
      assert u[1..] == Decimal(-n) && u[0] == '-' && !AllDigits(u);
    } else {
      NatIsNumber(n);
      DecimalValue(n);
    }
  }

  /** What may follow a value inside an object. */
  predicate Delimited(t: string, j: nat)
  {
    j < |t| ==> t[j] == ',' || t[j] == '}'
  }

  lemma ParsePrintedStr(t: string, i: nat, s: string)
    requires Looks(t, i, "\"" + Escaped(s) + "\"")
    ensures ParseValue(t, i) == Good(JStr(s), i + |Escaped(s)| + 2)
  {
    var body := Escaped(s) + "\"";
    assert "\"" + Escaped(s) + "\"" == "\"" + body;
    LooksSplit(t, i, "\"", body);
    LooksChar(t, i, "\"");
    ParsePrintedString(t, i + 1, s);
  }

  lemma ParsePrintedBool(t: string, i: nat, b: bool)
    requires Looks(t, i, if b then "true" else "false")
    ensures ParseValue(t, i) == Good(JBool(b), i + if b then 4 else 5)
  {
    LooksChar(t, i, if b then "true" else "false");
    if !b && Looks(t, i, "true") {
      LooksChar(t, i, "true");
    }
  }

  lemma ParsePrintedScalar(t: string, i: nat, v: Json)
    requires !v.JObj? && ValidJson(v) && Looks(t, i, Render(v)) && Delimited(t, i + |Render(v)|)
    ensures ParseValue(t, i) == Good(v, i + |Render(v)|)
  {
    match v {
      case JStr(s) => ParsePrintedStr(t, i, s);
      case JNum(text) =>
        ParsePrintedNumber(t, i, text);
        NotAWord(t, i);
      case JBool(b) => ParsePrintedBool(t, i, b);
    }
  }

  lemma NotAWord(t: string, i: nat)
    requires i < |t| && t[i] != 't' && t[i] != 'f'
    ensures !Looks(t, i, "true") && !Looks(t, i, "false")
  {
    if Looks(t, i, "true") {
      LooksChar(t, i, "true");
    }
    if Looks(t, i, "false") {
      LooksChar(t, i, "false");
    }
  }

  /** Parsing a printed value gives the value back. */
  lemma {:induction false} ParsePrinted(t: string, i: nat, v: Json)
    requires ValidJson(v) && Looks(t, i, Render(v)) && Delimited(t, i + |Render(v)|)
    ensures ParseValue(t, i) == Good(v, i + |Render(v)|)
    decreases v, 0
  {
    if !v.JObj? {
      ParsePrintedScalar(t, i, v);
    } else if v.members.JNil? {
      ParseEmptyObject(t, i);
    } else {
      SplitObject(t, i, v.members);
      ParsePrintedMembers(t, i + 1, v.members);
    }
  }

  lemma ParseEmptyObject(t: string, i: nat)
    requires Looks(t, i, Render(JObj(JNil)))
    ensures ParseValue(t, i) == Good(JObj(JNil), i + 2) && |Render(JObj(JNil))| == 2
  {
    assert Render(JObj(JNil)) == "{" + "}";
    LooksSplit(t, i, "{", "}");
    LooksChar(t, i, "{");
    LooksChar(t, i + 1, "}");
  }

  lemma SplitObject(t: string, i: nat, ms: Members)
    requires ms.JCons? && Looks(t, i, Render(JObj(ms)))
    ensures t[i] == '{' && i + 1 < |t| && t[i + 1] == '"' && Looks(t, i + 1, RenderMembers(true, ms) + "}")
    ensures |Render(JObj(ms))| == 1 + |RenderMembers(true, ms) + "}"|
  {
    MembersStart(ms);
    SplitBraces(t, i, RenderMembers(true, ms));
  }

  lemma SplitBraces(t: string, i: nat, inner: string)
    requires inner != [] && Looks(t, i, "{" + inner + "}")
    ensures t[i] == '{' && i + 1 < |t| && t[i + 1] == inner[0] && Looks(t, i + 1, inner + "}")
  {
    var body := inner + "}";
    assert "{" + inner + "}" == "{" + body;
    LooksSplit(t, i, "{", body);
    LooksChar(t, i, "{");
    LooksChar(t, i + 1, body);
  }

  lemma MembersStart(ms: Members)
    requires ms.JCons?
    ensures RenderMembers(true, ms) != [] && RenderMembers(true, ms)[0] == '"'
    ensures RenderMembers(false, ms) == "," + RenderMembers(true, ms)
  {
    assert KeyText(false, ms.key) == "," + KeyText(true, ms.key);
  }

  /** What is printed behind the first value. */
  function Tail(rest: Members): string
  {
    if rest.JNil? then "}" else "," + (RenderMembers(true, rest) + "}")
  }

  lemma MembersShape(ms: Members)
    requires ms.JCons?
    ensures RenderMembers(true, ms) + "}" == KeyText(true, ms.key) + (Render(ms.value) + Tail(ms.rest))
  {
    var rest := RenderMembers(false, ms.rest);
    RegroupBefore(KeyText(true, ms.key), Render(ms.value), rest, "}");
    assert rest + "}" == Tail(ms.rest) by {
      if ms.rest.JCons? {
        MembersStart(ms.rest);
        RegroupBefore(",", RenderMembers(true, ms.rest), "", "}");
        assert RenderMembers(true, ms.rest) + "" == RenderMembers(true, ms.rest) && "" + "}" == "}";
      }
    }
  }

  lemma LooksThree(t: string, i: nat, a: string, b: string, c: string)
    requires Looks(t, i, a + (b + c)) && c != []
    ensures Looks(t, i, a) && Looks(t, i + |a|, b) && Looks(t, i + |a| + |b|, c)
    ensures i + |a| + |b| < |t| && t[i + |a| + |b|] == c[0]
  {
    LooksSplit(t, i, a, b + c);
    LooksSplit(t, i + |a|, b, c);
    LooksChar(t, i + |a| + |b|, c);
  }

  /** Parsing one or more printed members gives them back. */
  lemma {:induction false} ParsePrintedMembers(t: string, i: nat, ms: Members)
    requires ms.JCons? && ValidMembers(ms) && Looks(t, i, RenderMembers(true, ms) + "}")
    ensures ParseMembers(t, i) == Good(ms, i + |RenderMembers(true, ms) + "}"|)
    decreases ms, 3
  {
    MembersShape(ms);
    LooksThree(t, i, KeyText(true, ms.key), Render(ms.value), Tail(ms.rest));
    ParsePrintedMember(t, i + |KeyText(true, ms.key)|, ms);
    ParsePrintedKey(t, i, ms.key);
  }

  lemma {:induction false} ParsePrintedMember(t: string, i: nat, ms: Members)
    requires ms.JCons? && ValidMembers(ms) && Looks(t, i, Render(ms.value)) &&
      Looks(t, i + |Render(ms.value)|, Tail(ms.rest))
    ensures ParseMember(t, ms.key, i) == Good(ms, i + |Render(ms.value)| + |Tail(ms.rest)|)
    decreases ms, 2
  {
    var n := i + |Render(ms.value)|;
    LooksChar(t, n, Tail(ms.rest));
    assert ParseValue(t, i) == Good(ms.value, n) by { ParsePrinted(t, i, ms.value); }
    assert ParseMore(t, ms.key, ms.value, n) == Good(ms, n + |Tail(ms.rest)|) by { ParsePrintedTail(t, n, ms); }
  }

  lemma {:induction false} ParsePrintedTail(t: string, i: nat, ms: Members)
    requires ms.JCons? && ValidMembers(ms) && Looks(t, i, Tail(ms.rest))
    ensures ParseMore(t, ms.key, ms.value, i) == Good(ms, i + |Tail(ms.rest)|)
    decreases ms, 1
  {
    if ms.rest.JNil? {
      LooksChar(t, i, "}");
      assert ms == JCons(ms.key, ms.value, JNil);
    } else {
      ParsePrintedRest(t, i, ms, RenderMembers(true, ms.rest) + "}");
    }
  }

  lemma {:induction false} ParsePrintedRest(t: string, i: nat, ms: Members, rest: string)
    requires ms.JCons? && ms.rest.JCons? && ValidMembers(ms) && rest == RenderMembers(true, ms.rest) + "}"
    requires Looks(t, i, "," + rest)
    ensures ParseMore(t, ms.key, ms.value, i) == Good(ms, i + |"," + rest|)
    decreases ms, 0
  {
    assert t[i] == ',' && Looks(t, i + 1, rest) by {
      LooksSplit(t, i, ",", rest);
      LooksChar(t, i, ",");
    }
    var n := i + 1 + |rest|;
    assert ParseMembers(t, i + 1) == Good(ms.rest, n) by { ParsePrintedMembers(t, i + 1, ms.rest); }
    MoreMembers(t, i, ms, n);
  }

  lemma MoreMembers(t: string, i: nat, ms: Members, n: nat)
    requires i < |t| && t[i] == ',' && ms.JCons? && ParseMembers(t, i + 1) == Good(ms.rest, n)
    ensures ParseMore(t, ms.key, ms.value, i) == Good(ms, n)
  {
  }

  lemma ParsePrintedKey(t: string, i: nat, key: string)
    requires Looks(t, i, KeyText(true, key))
    ensures t[i] == '"' && ParseString(t, i + 1, "") == Good(key, i + |KeyText(true, key)| - 1)
    ensures t[i + |KeyText(true, key)| - 1] == ':'
  {
    var body := Escaped(key) + "\"";
    assert KeyText(true, key) == "\"" + (body + ":");
    LooksSplit(t, i, "\"", body + ":");
    LooksChar(t, i, "\"");
    LooksSplit(t, i + 1, body, ":");
    LooksChar(t, i + 1 + |body|, ":");
    ParsePrintedString(t, i + 1, key);
  }

  lemma KeyThenBad(t: string, i: nat, key: string, j: nat)
    requires Looks(t, i, KeyText(true, key)) && j == i + |KeyText(true, key)| && ParseMember(t, key, j).Bad?
    ensures ParseMembers(t, i).Bad?
  {
    ParsePrintedKey(t, i, key);
  }

  /** `Parse` undoes `Render`. */
  lemma ParseRender(v: Json)
    requires ValidJson(v)
    ensures Parse(Render(v)) == Good(v, |Render(v)|)
  {
    assert Looks(Render(v), 0, Render(v));
    ParsePrinted(Render(v), 0, v);
  }
}
