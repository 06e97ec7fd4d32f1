/** The tokens of format strings and how the compiler recognises them (`token_match`). */
module FormatTokens {
  import opened FormatProgram

  function Name(t: Token): (s: string)
    ensures |s| >= 3
  {
    match t
    case TTime => "time"
    case TLevel => "level"
    case TMsg => "msg"
    case TThread => "thread"
    case TPid => "pid"
    case TFile => "file"
    case TLine => "line"
    case TFunc => "func"
    case TModule => "module"
    case TTag => "tag"
    case TNewline => "newline"
    case TTraceId => "trace_id"
    case TSpanId => "span_id"
  }

  predicate IsAlpha(c: char) { 'a' <= c <= 'z' || 'A' <= c <= 'Z' }

  /** The name is at position i and no letter follows it. */
  predicate MatchesAt(str: string, i: nat, t: Token)
  {
    StandsAt(str, i, Name(t))
  }

  predicate StandsAt(str: string, i: nat, name: string)
  {
    var n := |name|;
    i + n <= |str| && str[i..i + n] == name && (i + n < |str| ==> !IsAlpha(str[i + n]))
  }

  /** The order in which the compiler tries the tokens. */
  function Nth(k: nat): Token
    requires k < 13
  {
    match k
    case 0 => TTime
    case 1 => TLevel
    case 2 => TMsg
    case 3 => TThread
    case 4 => TPid
    case 5 => TFile
    case 6 => TLine
    case 7 => TFunc
    case 8 => TModule
    case 9 => TTag
    case 10 => TNewline
    case 11 => TTraceId
    case 12 => TSpanId
  }

  function Rank(t: Token): (k: nat)
    ensures k < 13 && Nth(k) == t
  {
    match t
    case TTime => 0
    case TLevel => 1
    case TMsg => 2
    case TThread => 3
    case TPid => 4
    case TFile => 5
    case TLine => 6
    case TFunc => 7
    case TModule => 8
    case TTag => 9
    case TNewline => 10
    case TTraceId => 11
    case TSpanId => 12
  }

  /** The first three letters tell the tokens apart. */
  function ByLetters(a: char, b: char, c: char): Token
  {
    if a == 't' then
      if b == 'i' then TTime else if b == 'h' then TThread else if b == 'a' then TTag else TTraceId
    else if a == 'l' then if b == 'e' then TLevel else TLine
    else if a == 'm' then if b == 's' then TMsg else TModule
    else if a == 'f' then if b == 'i' then TFile else TFunc
    else if a == 'p' then TPid
    else if a == 'n' then TNewline
    else TSpanId
  }

  lemma NameLetters(t: Token)
    ensures ByLetters(Name(t)[0], Name(t)[1], Name(t)[2]) == t
  {
  }

  lemma MatchLetters(str: string, i: nat, t: Token)
    requires MatchesAt(str, i, t)
    ensures i + 3 <= |str| && ByLetters(str[i], str[i + 1], str[i + 2]) == t
  {
    var n := |Name(t)|;
    assert str[i..i + n][0] == str[i] && str[i..i + n][1] == str[i + 1] && str[i..i + n][2] == str[i + 2];
    NameLetters(t);
  }

  /** At most one token matches at a position, so the order does not matter. */
  lemma MatchIsUnique(str: string, i: nat, t: Token, u: Token)
    requires MatchesAt(str, i, t) && MatchesAt(str, i, u)
    ensures t == u
  {
    MatchLetters(str, i, t);
    MatchLetters(str, i, u);
  }

  /** What stands at position i, however it is searched. */
  ghost predicate Lexes(str: string, i: nat, found: Found)
  {
    (forall t :: MatchesAt(str, i, t) <==>
      found.Tok? && found.t == t) && (found.Tok? ==> found.end == i + |Name(found.t)|)
  }

  /** The tokens at the first n positions. */
  ghost function LexTable(str: string, n: nat): (toks: seq<Found>)
    requires n <= |str| + 1
    ensures |toks| == n && forall i :: 0 <= i < n ==> toks[i].Tok? ==> i < toks[i].end <= |str|
  {
    if n == 0 then [] else Snoc(LexTable(str, n - 1), LexAt(str, n - 1))
  }

  function Snoc(toks: seq<Found>, found: Found): (r: seq<Found>)
    ensures |r| == |toks| + 1 && r[|toks|] == found && forall i :: 0 <= i < |toks| ==> r[i] == toks[i]
  {
    toks + [found]
  }

  ghost function Lexed(str: string): (f: Format)
    ensures f.str == str && f.Valid()
  {
    Format(str, LexTable(str, |str| + 1))
  }

  lemma {:induction false} LexTableAt(str: string, n: nat, i: nat)
    requires i < n <= |str| + 1
    ensures LexTable(str, n)[i] == LexAt(str, i)
    decreases n
  {
    if i < n - 1 {
      LexTableAt(str, n - 1, i);
    }
  }

  ghost function LexAt(str: string, i: nat): (found: Found)
    requires i <= |str|
    ensures Lexes(str, i, found) && (found.Tok? ==> i < found.end <= |str|)
  {
    if exists t :: MatchesAt(str, i, t) then
      var t :| MatchesAt(str, i, t);
      assert forall u :: MatchesAt(str, i, u) <==> u == t by {
        forall u | MatchesAt(str, i, u) ensures u == t { MatchIsUnique(str, i, t, u); }
      }
      Tok(t, i + |Name(t)|)
    else NoToken
  }

  /** A lexed format knows every token, whatever the order of the search. */
  lemma LexedTokens(str: string, i: nat, t: Token)
    requires i <= |str|
    ensures MatchesAt(str, i, t) <==> Lexed(str).toks[i] == Tok(t, i + |Name(t)|)
  {
    LexTableAt(str, |str| + 1, i);
    assert Lexes(str, i, LexAt(str, i));
  }

  /** The chain of `token_match` calls behind a '%'. */
  method FindToken(str: string, i: nat) returns (found: Found)
    requires i <= |str|
    ensures found == Lexed(str).toks[i]
  {
    found := TryTokens(str, i);
    LexTableAt(str, |str| + 1, i);
  }

  method TryTokens(str: string, i: nat) returns (found: Found)
    requires i <= |str|
    ensures found == LexAt(str, i)
  {
    ghost var spec := LexAt(str, i);
    for k := 0 to 13
      invariant forall t :: Rank(t) < k ==> !MatchesAt(str, i, t)
    {
      var t := Nth(k);
      var n := |Name(t)|;
      if i + n <= |str| && str[i..i + n] == Name(t) && (i + n == |str| || !IsAlpha(str[i + n])) {
        assert MatchesAt(str, i, t);
        return Tok(t, i + n);
      }
      assert !MatchesAt(str, i, t);
      assert forall u :: Rank(u) == k ==> u == t;
    }
    assert forall t :: Rank(t) < 13;
    return NoToken;
  }
}
