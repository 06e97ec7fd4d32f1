/** Format strings: the segments the compiler cuts them into, the program it makes, and direct
    substitution, one character or token at a time. */
module FormatProgram {
  import opened CStrings

  datatype Token =
    | TTime | TLevel | TMsg | TThread | TPid | TFile | TLine | TFunc | TModule | TTag | TNewline | TTraceId | TSpanId

  /** The token at a position, and where it ends. */
  datatype Found = NoToken | Tok(t: Token, end: nat)

  /** A format string and, for every position, the token found there. */
  datatype Format = Format(str: string, toks: seq<Found>)
  {
    predicate Valid()
    {
      |toks| == |str| + 1 && forall i :: 0 <= i < |toks| ==> toks[i].Tok? ==> i < toks[i].end <= |str|
    }
  }

  // ---- segments ----

  /** An instruction; a literal is a stretch of the format string. */
  datatype Op = Literal(start: nat, len: nat) | Field(t: Token)

  /** The end of the stretch without '%' that starts at i. */
  function LiteralEnd(str: string, i: nat): (j: nat)
    requires i <= |str|
    ensures i <= j <= |str| && (j < |str| ==> str[j] == '%') && forall k :: i <= k < j ==> str[k] != '%'
    decreases |str| - i
  {
    if i < |str| && str[i] != '%' then LiteralEnd(str, i + 1) else i
  }

  function SegOp(f: Format, i: nat): Op
    requires f.Valid() && i < |f.str|
  {
    if f.str[i] != '%' then Literal(i, LiteralEnd(f.str, i) - i)
    else if f.toks[i + 1].Tok? then Field(f.toks[i + 1].t)
    else Literal(i, 1)
  }

  function SegEnd(f: Format, i: nat): (j: nat)
    requires f.Valid() && i < |f.str|
    ensures i < j <= |f.str|
  {
    if f.str[i] != '%' then LiteralEnd(f.str, i)
    else if f.toks[i + 1].Tok? then f.toks[i + 1].end
    else i + 1
  }

  /** The number of segments from i on. */
  function SegCount(f: Format, i: nat): nat
    requires f.Valid() && i <= |f.str|
    decreases |f.str| - i
  {
    if i == |f.str| then 0 else 1 + SegCount(f, SegEnd(f, i))
  }

  /** Where n segments from i on end. */
  function Covered(f: Format, i: nat, n: nat): (j: nat)
    requires f.Valid() && i <= |f.str|
    ensures i <= j <= |f.str|
    decreases n
  {
    if i == |f.str| || n == 0 then i else Covered(f, SegEnd(f, i), n - 1)
  }

  /** n segments cover the rest of the format string exactly when it has no more than n. */
  lemma {:induction false} CoveredIff(f: Format, i: nat, n: nat)
    requires f.Valid() && i <= |f.str|
    ensures Covered(f, i, n) == |f.str| <==> SegCount(f, i) <= n
    decreases n
  {
    if i < |f.str| && n > 0 {
      CoveredIff(f, SegEnd(f, i), n - 1);
    }
  }

  // ---- meaning ----

  /** Direct substitution from i up to j: tokens by their text, everything else as it is. */
  function Subst(f: Format, i: nat, j: nat, text: Token -> string): string
    requires f.Valid() && i <= j <= |f.str|
    decreases j - i
  {
    if i == j then ""
    else if f.str[i] == '%' && f.toks[i + 1].Tok? && f.toks[i + 1].end <= j then
      text(f.toks[i + 1].t) + Subst(f, f.toks[i + 1].end, j, text)
    else [f.str[i]] + Subst(f, i + 1, j, text)
  }

  predicate InFormat(str: string, op: Op)
  {
    op.Literal? ==> op.start + op.len <= |str|
  }

  function OpText(str: string, op: Op, text: Token -> string): string
    requires InFormat(str, op)
  {
    match op
    case Literal(start, len) => str[start..start + len]
    case Field(t) => text(t)
  }

  predicate AllInFormat(str: string, ops: seq<Op>)
  {
    forall k :: 0 <= k < |ops| ==> InFormat(str, ops[k])
  }

  /** What the first n instructions print. */
  function RunTo(str: string, ops: seq<Op>, n: nat, text: Token -> string): string
    requires AllInFormat(str, ops) && n <= |ops|
  {
    if n == 0 then "" else RunTo(str, ops, n - 1, text) + OpText(str, ops[n - 1], text)
  }

  /** A stretch without '%' stands for itself. */
  lemma {:induction false} SubstLiteral(f: Format, i: nat, m: nat, j: nat, text: Token -> string)
    requires f.Valid() && i <= m <= j <= |f.str| && forall k :: i <= k < m ==> f.str[k] != '%'
    ensures Subst(f, i, j, text) == f.str[i..m] + Subst(f, m, j, text)
    decreases m - i
  {
    if i < m {
      SubstLiteral(f, i + 1, m, j, text);
      assert f.str[i..m] == [f.str[i]] + f.str[i + 1..m];
    } else {
      assert f.str[i..m] + Subst(f, m, j, text) == Subst(f, m, j, text);
    }
  }

  /** One segment. */
  lemma SubstSegment(f: Format, i: nat, j: nat, text: Token -> string)
    requires f.Valid() && i < |f.str| && SegEnd(f, i) <= j <= |f.str|
    ensures InFormat(f.str, SegOp(f, i))
    ensures Subst(f, i, j, text) == OpText(f.str, SegOp(f, i), text) + Subst(f, SegEnd(f, i), j, text)
  {
    if f.str[i] != '%' {
      SubstLiteral(f, i, LiteralEnd(f.str, i), j, text);
    } else if f.toks[i + 1].NoToken? {
      assert f.str[i..i + 1] == [f.str[i]];
    }
  }

  // ---- programs ----

  /** Segment by segment. */
  lemma {:induction false} CoveredNext(f: Format, i: nat, n: nat)
    requires f.Valid() && i <= |f.str| && Covered(f, i, n) < |f.str|
    ensures Covered(f, i, n + 1) == SegEnd(f, Covered(f, i, n))
    decreases n
  {
    if n == 0 {
    } else {
      CoveredNext(f, SegEnd(f, i), n - 1);
    }
  }

  /** The instructions are those of the first segments: all of them, or as many as there is
      room for. */
  predicate IsProgram(f: Format, ops: seq<Op>, room: nat)
    requires f.Valid()
  {
    |ops| <= room && (|ops| < room ==> Covered(f, 0, |ops|) == |f.str|) &&
    forall k :: 0 <= k < |ops| ==> Covered(f, 0, k) < |f.str| && ops[k] == SegOp(f, Covered(f, 0, k))
  }

  lemma ProgramInFormat(f: Format, ops: seq<Op>, room: nat)
    requires f.Valid() && IsProgram(f, ops, room)
    ensures AllInFormat(f.str, ops)
  {
  }

  lemma {:induction false} RunIsSubst(f: Format, ops: seq<Op>, room: nat, n: nat, j: nat, text: Token -> string)
    requires f.Valid() && IsProgram(f, ops, room) && AllInFormat(f.str, ops)
    requires n <= |ops| && Covered(f, 0, n) <= j <= |f.str|
    ensures Subst(f, 0, j, text) == RunTo(f.str, ops, n, text) + Subst(f, Covered(f, 0, n), j, text)
    decreases n
  {
    if n == 0 {
      assert "" + Subst(f, 0, j, text) == Subst(f, 0, j, text);
    } else {
      var at := Covered(f, 0, n - 1);
      CoveredNext(f, 0, n - 1);
      RunIsSubst(f, ops, room, n - 1, j, text);
      SubstSegment(f, at, j, text);
      Regroup(RunTo(f.str, ops, n - 1, text), OpText(f.str, ops[n - 1], text), Subst(f, Covered(f, 0, n), j, text));
    }
  }

  /** The program prints the direct substitution of the format string up to the end of its last
      segment, and that is all of it exactly when the segments fit. */
  lemma ProgramIsSubst(f: Format, ops: seq<Op>, room: nat, text: Token -> string)
    requires f.Valid() && IsProgram(f, ops, room)
    ensures AllInFormat(f.str, ops)
    ensures RunTo(f.str, ops, |ops|, text) == Subst(f, 0, Covered(f, 0, room), text)
    ensures Covered(f, 0, room) == |f.str| <==> SegCount(f, 0) <= room
  {
    ProgramInFormat(f, ops, room);
    CoveredIff(f, 0, room);
    CoveredStays(f, 0, |ops|, room);
    var j := Covered(f, 0, room);
    RunIsSubst(f, ops, room, |ops|, j, text);
    assert RunTo(f.str, ops, |ops|, text) + "" == RunTo(f.str, ops, |ops|, text);
  }

  lemma {:induction false} CoveredStays(f: Format, i: nat, n: nat, m: nat)
    requires f.Valid() && i <= |f.str| && n <= m && (n < m ==> Covered(f, i, n) == |f.str|)
    ensures Covered(f, i, m) == Covered(f, i, n)
    decreases n
  {
    if i < |f.str| && n > 0 {
      CoveredStays(f, SegEnd(f, i), n - 1, m - 1);
    }
  }
}
