/** A key with an early control byte: some buffer size cuts the key right there, and the line
    that is returned is not JSON.  With `JsonDocument.LineParses` and `JsonNumbers` this gives the
    exact condition under which every line is well formed. */
module JsonBadKey {
  import opened CStrings
  import opened JsonText
  import opened JsonPrinter
  import opened JsonCut
  import opened JsonDocument
  import JN = JsonNumbers

  // ---- a buffer that cuts the key ----

  /** The members are printed up to the untame key, and this is cut. */
  ghost predicate CutInKey(first: bool, p: Prog, close: string, room: nat, before: Members, part: string)
  {
    Exec(p, room) == Line(RenderMembers(first, before) + (Opening(first &&
      before.JNil?) + (Escaped(part) + ("\"" + close))))
  }

  lemma ExecSeg(a: string, s: string, closer: string, rest: Prog, room: nat, r: nat)
    requires r > 0 && room == |a| + r
    ensures Exec(Seg(a, s, closer, rest), room) == After(a, ExecStr(s, closer, rest, r))
  {
    assert room - |a| == r;
  }

  lemma SegCut(a: string, s: string, closer: string, rest: Prog, n: nat, room: nat)
    requires n < |s| - 1 && |closer| < |Esc(s[n])| && room == |a| + |EscTo(s, n)| + |closer| + 1
    ensures Exec(Seg(a, s, closer, rest), room) == Line(a + (EscTo(s, n) + closer))
  {
    var r := room - |a|;
    FitAt(s, 0, n, r);
    assert ExecBehind(s, closer, rest, r) == Line(closer);
    assert ExecStr(s, closer, rest, r) == Line(EscTo(s, n) + closer);
    ExecSeg(a, s, closer, rest, room, r);
  }

  lemma CutHere(first: bool, key: string, close: string, rest: Prog) returns (room: nat, part: string)
    requires !Tame(true, key) && 1 <= |close| <= 4
    ensures room > 0 && CutInKey(first, Seg(Opening(first), key, "\"" + close, rest), close, room, JNil, part)
  {
    var i :| 0 <= i < |key| - 1 && IsRawControl(key[i]);
    part := key[..i];
    assert Escaped(part) == EscTo(key, i) by { EscapedCut(key, i); }
    var a, closer := Opening(first), "\"" + close;
    room := |a| + |EscTo(key, i)| + |closer| + 1;
    assert Exec(Seg(a, key, closer, rest), room) == Line(a + (EscTo(key, i) + closer)) by {
      SegCut(a, key, closer, rest, i, room);
    }
    assert RenderMembers(first, JNil) + (a + (Escaped(part) + closer)) == a + (Escaped(part) + closer);
  }

  // ---- what is printed whole ----

  lemma SegWhole(a: string, s: string, closer: string, rest: Prog, room: nat, left: nat)
    requires left > 0 && room == |a + Escaped(s)| + left
    ensures Exec(Seg(a, s, closer, rest), room) == After(a + Escaped(s), Exec(rest, left))
  {
    var r := room - |a|;
    WholeFits(s, r);
    assert ExecBehind(s, closer, rest, r) == Exec(rest, left);
    assert ExecStr(s, closer, rest, r) == After(Escaped(s), Exec(rest, left));
    ExecSeg(a, s, closer, rest, room, r);
    AfterAfter(a, Escaped(s), Exec(rest, left));
  }

  lemma RawWhole(b: string, more: Prog, room: nat, left: nat)
    requires left > 0 && room == |b| + left
    ensures Exec(AddRaw(b, more), room) == After(b, Exec(more, left))
  {
    ExecRaw(b, more, room);
    assert room - |b| == left;
  }

  lemma SegRawWhole(a: string, s: string, closer: string, b: string, more: Prog, room: nat, left: nat)
    requires left > 0 && room == |a + Escaped(s) + b| + left
    ensures Exec(Seg(a, s, closer, AddRaw(b, more)), room) == After(a + Escaped(s) + b, Exec(more, left))
  {
    SegWhole(a, s, closer, AddRaw(b, more), room, |b| + left);
    RawWhole(b, more, |b| + left, left);
    AfterAfter(a + Escaped(s), b, Exec(more, left));
  }

  /** With room behind it a key, or a value, is printed whole. */
  lemma KeyWhole(dynamic: bool, first: bool, key: string, closer: string, more: Prog, room: nat, left: nat)
    requires left > 0 && room == |KeyText(first, key)| + left
    ensures Exec(KeyProg(dynamic, first, key, closer, more), room) == After(KeyText(first, key), Exec(more, left))
  {
    if dynamic {
      SegRawWhole(Opening(first), key, closer, "\":", more, room, left);
    } else {
      RawWhole(KeyText(first, key), more, room, left);
    }
  }

  lemma SlotWhole(v: Slot, closer: string, more: Prog, room: nat, left: nat)
    requires left > 0 && room == |Render(SlotJson(v))| + left
    ensures Exec(SlotProg(v, closer, more), room) == After(Render(SlotJson(v)), Exec(more, left))
  {
    if v.Text? {
      SegRawWhole("\"", v.s, closer, "\"", more, room, left);
    } else {
      RawWhole(Render(v.v), more, room, left);
    }
  }

  lemma MemberWhole(dynamic: bool, first: bool, key: string, v: Slot, closer: string, more: Prog, room: nat, left: nat)
    requires left > 0 && room == |KeyText(first, key)| + |Render(SlotJson(v))| + left
    ensures Exec(KeyProg(dynamic, first, key, closer, SlotProg(v, closer, more)), room) ==
            After(KeyText(first, key), After(Render(SlotJson(v)), Exec(more, left)))
  {
    var r := |Render(SlotJson(v))| + left;
    SlotWhole(v, closer, more, r, left);
    KeyWhole(dynamic, first, key, closer, SlotProg(v, closer, more), room, r);
  }

  lemma {:induction false} CutSomewhere(first: bool, fs: Fields, close: string, k: Prog)
    returns (room: nat, before: Members, part: string)
    requires !TameKeys(true, fs) && ValidMembers(MembersOf(fs)) && 1 <= |close| <= 4
    ensures CutInKey(first, FieldsProg(first, fs, "\"" + close, k), close, room, before, part) && room > 0
    ensures ValidMembers(before)
    decreases fs
  {
    if fs.dynamic && !Tame(true, fs.key) {
      before := JNil;
      room, part := CutHere(first, fs.key, close,
        AddRaw("\":", SlotProg(fs.value, "\"" + close, FieldsProg(false, fs.rest, "\"" + close, k))));
    } else {
      var r, b;
      r, b, part := CutSomewhere(false, fs.rest, close, k);
      room := |KeyText(first, fs.key)| + |Render(SlotJson(fs.value))| + r;
      before := JCons(fs.key, SlotJson(fs.value), b);
      MemberWhole(fs.dynamic, first, fs.key, fs.value, "\"" + close, FieldsProg(false, fs.rest, "\"" +
        close, k), room, r);
      JoinMember(first, fs.key, SlotJson(fs.value), b, Opening(false) + (Escaped(part) + ("\"" + close)));
    }
  }

  // ---- such a line does not parse ----

  lemma BadKeyFails(t: string, i: nat, part: string)
    requires Looks(t, i, "\"" + (Escaped(part) + "\"")) && i + |Escaped(part)| + 2 < |t| &&
      t[i + |Escaped(part)| + 2] != ':'
    ensures ParseMembers(t, i).Bad?
  {
    LooksSplit(t, i, "\"", Escaped(part) + "\"");
    LooksChar(t, i, "\"");
    ParsePrintedString(t, i + 1, part);
  }

  lemma SplitThree(t: string, i: nat, a: string, b: string, c: string)
    requires Looks(t, i, a + (b + c))
    ensures Looks(t, i, a) && Looks(t, i + |a|, b) && Looks(t, i + |a| + |b|, c)
  {
    LooksSplit(t, i, a, b + c);
    LooksSplit(t, i + |a|, b, c);
  }

  /** The three parts of printed members. */
  ghost predicate Parts(ms: Members, a: string, b: string, c: string)
    requires ms.JCons?
  {
    a == KeyText(true, ms.key) && b == Render(ms.value) && c == RenderMembers(false, ms.rest)
  }

  lemma SplitComma(t: string, n: nat, ms: Members)
    requires ms.JCons? && Looks(t, n, RenderMembers(false, ms))
    ensures n < |t| && t[n] == ',' && Looks(t, n + 1, RenderMembers(true, ms))
    ensures |RenderMembers(false, ms)| == 1 + |RenderMembers(true, ms)|
  {
    MembersStart(ms);
    LooksSplit(t, n, ",", RenderMembers(true, ms));
    LooksChar(t, n, ",");
  }

  lemma BadMoreFails(t: string, j: nat, key: string, v: Json, n: nat)
    requires ParseValue(t, j) == Good(v, n) && n < |t| && t[n] == ',' && ParseMembers(t, n + 1).Bad?
    ensures ParseMember(t, key, j).Bad?
  {
    assert ParseMore(t, key, v, n).Bad?;
  }

  lemma BadMemberFails(t: string, i: nat, key: string, v: Json, j: nat, n: nat)
    requires Looks(t, i, KeyText(true, key)) && j == i + |KeyText(true, key)|
    requires ValidJson(v) && Looks(t, j, Render(v)) && n == j + |Render(v)|
    requires n < |t| && t[n] == ',' && ParseMembers(t, n + 1).Bad?
    ensures ParseMembers(t, i).Bad?
  {
    assert ParseMember(t, key, j).Bad? by {
      assert ParseValue(t, j) == Good(v, n) by { ParsePrinted(t, j, v); }
      BadMoreFails(t, j, key, v, n);
    }
    KeyThenBad(t, i, key, j);
  }

  /** Members behind which something else than members follows do not parse. */
  lemma {:induction false} BadTailFails(t: string, i: nat, ms: Members, e: nat)
    requires ms.JCons? && ValidMembers(ms) && Looks(t, i, RenderMembers(true, ms)) && e == i + |RenderMembers(true, ms)|
    requires e < |t| && t[e] == ',' && ParseMembers(t, e + 1).Bad?
    ensures ParseMembers(t, i).Bad?
    decreases ms, 1
  {
    var a, b, c := KeyText(true, ms.key), Render(ms.value), RenderMembers(false, ms.rest);
    assert RenderMembers(true, ms) == a + (b + c);
    BadTailStep(t, i, ms, e, a, b, c);
  }

  lemma {:induction false} BadTailStep(t: string, i: nat, ms: Members, e: nat, a: string, b: string, c: string)
    requires ms.JCons? && ValidMembers(ms) && Parts(ms, a, b, c) && Looks(t, i, a + (b + c)) && e == i + |a| + |b| + |c|
    requires e < |t| && t[e] == ',' && ParseMembers(t, e + 1).Bad?
    ensures ParseMembers(t, i).Bad?
    decreases ms, 0
  {
    var j, n := i + |a|, i + |a| + |b|;
    assert Looks(t, i, a) && Looks(t, j, b) && Looks(t, n, c) by { SplitThree(t, i, a, b, c); }
    BadRest(t, n, ms.rest, e);
    BadMemberFails(t, i, ms.key, ms.value, j, n);
  }

  lemma {:induction false} BadRest(t: string, n: nat, rest: Members, e: nat)
    requires ValidMembers(rest) && Looks(t, n, RenderMembers(false, rest)) && e == n + |RenderMembers(false, rest)|
    requires e < |t| && t[e] == ',' && ParseMembers(t, e + 1).Bad?
    ensures n < |t| && t[n] == ',' && ParseMembers(t, n + 1).Bad?
    decreases rest, 2
  {
    if rest.JNil? {
    } else {
      SplitComma(t, n, rest);
      BadTailFails(t, n + 1, rest, e);
    }
  }

  lemma BadKeyAt(t: string, i: nat, part: string, close: string)
    requires close != "" && close[0] != ':' && Looks(t, i, "\"" + (Escaped(part) + ("\"" + close)))
    ensures i < |t| && t[i] == '"' && ParseMembers(t, i).Bad?
  {
    var body := "\"" + (Escaped(part) + "\"");
    RegroupBefore("\"", Escaped(part), "\"", close);
    assert "\"" + (Escaped(part) + ("\"" + close)) == body + close;
    FollowedBy(t, i, body, close);
    BadKeyFails(t, i, part);
  }

  lemma FollowedBy(t: string, i: nat, a: string, b: string)
    requires a != "" && b != "" && Looks(t, i, a + b)
    ensures Looks(t, i, a) && t[i] == a[0] && i + |a| < |t| && t[i + |a|] == b[0]
  {
    LooksSplit(t, i, a, b);
    LooksChar(t, i, a);
    LooksChar(t, i + |a|, b);
  }

  lemma BadKeyBehind(t: string, e: nat, part: string, close: string)
    requires close != "" && close[0] != ':' && Looks(t, e, ",\"" + (Escaped(part) + ("\"" + close)))
    ensures e < |t| && t[e] == ',' && ParseMembers(t, e + 1).Bad?
  {
    var bad := "\"" + (Escaped(part) + ("\"" + close));
    assert ",\"" + (Escaped(part) + ("\"" + close)) == "," + bad;
    LooksSplit(t, e, ",", bad);
    LooksChar(t, e, ",");
    BadKeyAt(t, e + 1, part, close);
  }

  /** The cut key behind printed members. */
  lemma BadBodyFails(t: string, i: nat, before: Members, part: string, close: string)
    requires ValidMembers(before) && close != "" && close[0] != ':'
    requires Looks(t, i, RenderMembers(true, before) + (Opening(before.JNil?) + (Escaped(part) + ("\"" + close))))
    ensures i < |t| && t[i] == '"' && ParseMembers(t, i).Bad?
  {
    var members, bad := RenderMembers(true, before), Opening(before.JNil?) + (Escaped(part) + ("\"" + close));
    LooksSplit(t, i, members, bad);
    if before.JNil? {
      BadKeyAt(t, i, part, close);
    } else {
      var e := i + |members|;
      BadKeyBehind(t, e, part, close);
      assert ParseMembers(t, i).Bad? by { BadTailFails(t, i, before, e); }
      MembersStart(before);
      LooksChar(t, i, members);
    }
  }

  lemma BadObjectFails(t: string, i: nat)
    requires i + 1 < |t| && t[i] == '{' && t[i + 1] == '"' && ParseMembers(t, i + 1).Bad?
    ensures ParseValue(t, i).Bad?
  {
  }

  lemma LooksBehind(t: string, a: string, b: string)
    requires t == a + b
    ensures Looks(t, |a|, b)
  {
  }

  /** A line that opens with members that do not parse. */
  lemma BadLine(t: string, before: Members, part: string)
    requires ValidMembers(before)
    requires t == "{" + (RenderMembers(true, before) + (Opening(before.JNil?) + (Escaped(part) + ("\"" + "}"))))
    ensures Parse(t).Bad?
  {
    var body := RenderMembers(true, before) + (Opening(before.JNil?) + (Escaped(part) + ("\"" + "}")));
    LooksBehind(t, "{", body);
    BadBodyFails(t, 1, before, part, "}");
    BadObjectFails(t, 0);
  }

  lemma FlatMalformed(fs: Fields, k: Prog) returns (room: nat)
    requires !TameKeys(true, fs) && ValidMembers(MembersOf(fs))
    ensures Exec(AddRaw("{", FieldsProg(true, fs, "\"" + "}", k)), room).Line?
    ensures Parse(Exec(AddRaw("{", FieldsProg(true, fs, "\"" + "}", k)), room).text).Bad?
  {
    var r, before, part := CutSomewhere(true, fs, "}", k);
    room := 1 + r;
    RawWhole("{", FieldsProg(true, fs, "\"" + "}", k), room, r);
    BadLine(Exec(AddRaw("{", FieldsProg(true, fs, "\"" + "}", k)), room).text, before, part);
  }

  lemma {:induction false} FieldsWhole(first: bool, fs: Fields, closer: string, k: Prog, room: nat, left: nat)
    requires left > 0 && room == |RenderMembers(first, MembersOf(fs))| + left
    ensures Exec(FieldsProg(first, fs, closer, k), room) == After(RenderMembers(first, MembersOf(fs)), Exec(k, left))
    decreases fs
  {
    if fs.FCons? {
      var a, b, c := KeyText(first, fs.key), Render(SlotJson(fs.value)), RenderMembers(false, MembersOf(fs.rest));
      assert RenderMembers(first, MembersOf(fs)) == a + (b + c);
      var r := |c| + left;
      FieldsWhole(false, fs.rest, closer, k, r, left);
      MemberWhole(fs.dynamic, first, fs.key, fs.value, closer, FieldsProg(false, fs.rest, closer, k), room, r);
      AfterAfter(b, c, Exec(k, left));
      AfterAfter(a, b + c, Exec(k, left));
    } else {
      AfterNothing(Exec(k, left));
    }
  }

  lemma AfterNothing(o: Outcome)
    ensures After("", o) == o
  {
    if o.Line? {
      assert "" + o.text == o.text;
    }
  }

  lemma SplitNested(t: string, e: nat, name: string, body: string, j: nat)
    requires Looks(t, e, KeyText(false, name) + "{" + body) && j == e + 1 + |KeyText(true, name)|
    ensures e < |t| && t[e] == ',' && Looks(t, e + 1, KeyText(true, name)) && t[j] == '{' && Looks(t, j + 1, body)
  {
    var key := KeyText(true, name);
    assert KeyText(false, name) == "," + key;
    SplitFour(t, e, ",", key, "{", body);
    LooksChar(t, e, ",");
    LooksChar(t, j, "{");
  }

  lemma SplitFour(t: string, e: nat, a: string, b: string, c: string, d: string)
    requires Looks(t, e, a + b + c + d)
    ensures Looks(t, e, a) && Looks(t, e + |a|, b) && Looks(t, e + |a| + |b|, c) && Looks(t, e + |a| + |b| + |c|, d)
  {
    assert a + b + c + d == a + (b + (c + d));
    LooksSplit(t, e, a, b + (c + d));
    SplitThree(t, e + |a|, b, c, d);
  }

  lemma BadValueFails(t: string, i: nat, name: string, j: nat)
    requires Looks(t, i, KeyText(true, name)) && j == i + |KeyText(true, name)|
    requires j + 1 < |t| && t[j] == '{' && t[j + 1] == '"' && ParseMembers(t, j + 1).Bad?
    ensures ParseMembers(t, i).Bad?
  {
    BadObjectFails(t, j);
    assert ParseMember(t, name, j).Bad?;
    ParsePrintedKey(t, i, name);
  }

  lemma BadNestedLine(t: string, all: Members, tail: string, e: nat)
    requires all.JCons? && ValidMembers(all)
    requires t == "{" + (RenderMembers(true, all) + tail) && e == 1 + |RenderMembers(true, all)|
    requires e < |t| && t[e] == ',' && ParseMembers(t, e + 1).Bad?
    ensures Parse(t).Bad?
  {
    LooksBehind(t, "{", RenderMembers(true, all) + tail);
    LooksSplit(t, 1, RenderMembers(true, all), tail);
    BadTailFails(t, 1, all, e);
    MembersStart(all);
    LooksChar(t, 1, RenderMembers(true, all));
    BadObjectFails(t, 0);
  }

  lemma NestedText(outer: Fields, name: string, inner: Fields, r: nat, bad: string) returns (room: nat)
    requires r > 0 && Exec(FieldsProg(true, inner, "\"" + "}}", Last("}}")), r) == Line(bad)
    ensures Exec(DocProg(Nested(outer, name, inner)), room) ==
            Line("{" + (RenderMembers(true, MembersOf(outer)) + (KeyText(false, name) + "{" + bad)))
  {
    var open := KeyText(false, name) + "{";
    var rn := |open| + r;
    assert Exec(NestedProg(name, inner), rn) == Line(open + bad) by {
      RawWhole(open, FieldsProg(true, inner, "\"" + "}}", Last("}}")), rn, r);
    }
    room := OuterText(outer, NestedProg(name, inner), rn, open + bad);
  }

  lemma OuterText(outer: Fields, k: Prog, r: nat, tail: string) returns (room: nat)
    requires r > 0 && Exec(k, r) == Line(tail)
    ensures Exec(AddRaw("{", FieldsProg(true, outer, "\"" + "}", k)), room) ==
            Line("{" + (RenderMembers(true, MembersOf(outer)) + tail))
  {
    var ro := |RenderMembers(true, MembersOf(outer))| + r;
    FieldsWhole(true, outer, "\"" + "}", k, ro, r);
    room := 1 + ro;
    RawWhole("{", FieldsProg(true, outer, "\"" + "}", k), room, ro);
  }

  ghost predicate BadBody(bad: string, before: Members, part: string)
  {
    ValidMembers(before) &&
      bad == RenderMembers(true, before) + (Opening(before.JNil?) + (Escaped(part) + ("\"" + "}}")))
  }

  lemma BadInnerAt(t: string, e: nat, name: string, before: Members, part: string, bad: string)
    requires Looks(t, e, KeyText(false, name) + "{" + bad) && BadBody(bad, before, part)
    ensures e < |t| && t[e] == ',' && ParseMembers(t, e + 1).Bad?
  {
    var j := e + 1 + |KeyText(true, name)|;
    SplitNested(t, e, name, bad, j);
    assert j + 1 < |t| && t[j + 1] == '"' && ParseMembers(t, j + 1).Bad? by {
      BadInnerBody(t, j + 1, before, part, bad);
    }
    assert ParseMembers(t, e + 1).Bad? by { BadValueFails(t, e + 1, name, j); }
  }

  lemma BadInnerBody(t: string, i: nat, before: Members, part: string, bad: string)
    requires Looks(t, i, bad) && BadBody(bad, before, part)
    ensures i < |t| && t[i] == '"' && ParseMembers(t, i).Bad?
  {
    BadBodyFails(t, i, before, part, "}}");
  }

  lemma BadInnerLine(t: string, all: Members, name: string, before: Members, part: string, bad: string, tail: string)
    requires all.JCons? && ValidMembers(all) && t == "{" + (RenderMembers(true, all) + tail)
    requires tail == KeyText(false, name) + "{" + bad && BadBody(bad, before, part)
    ensures Parse(t).Bad?
  {
    var e := 1 + |RenderMembers(true, all)|;
    assert Looks(t, e, tail) by {
      assert t == "{" + RenderMembers(true, all) + tail;
      LooksBehind(t, "{" + RenderMembers(true, all), tail);
    }
    assert e < |t| && t[e] == ',' && ParseMembers(t, e + 1).Bad? by { BadInnerAt(t, e, name, before, part, bad); }
    BadNestedLine(t, all, tail, e);
  }

  lemma NestedMalformed(outer: Fields, name: string, inner: Fields) returns (room: nat)
    requires outer.FCons? && !TameKeys(true, inner) && ValidMembers(MembersOf(outer)) && ValidMembers(MembersOf(inner))
    ensures Exec(DocProg(Nested(outer, name, inner)), room).Line?
    ensures Parse(Exec(DocProg(Nested(outer, name, inner)), room).text).Bad?
  {
    var r, before, part := CutSomewhere(true, inner, "}}", Last("}}"));
    var bad := Exec(FieldsProg(true, inner, "\"" + "}}", Last("}}")), r).text;
    room := NestedText(outer, name, inner, r, bad);
    BadInnerLine(Exec(DocProg(Nested(outer, name, inner)), room).text, MembersOf(outer), name, before, part, bad,
      KeyText(false, name) + "{" + bad);
  }

  lemma {:induction false} AppendValid(a: Members, b: Members)
    requires ValidMembers(Append(a, b))
    ensures ValidMembers(a) && ValidMembers(b)
  {
    if a.JNil? {
    } else {
      AppendValid(a.rest, b);
    }
  }

  /** Some buffer size makes the printer return a line that is not JSON. */
  lemma MalformedLine(d: Doc) returns (room: nat)
    requires ValidDoc(d) && !TameDoc(true, d) && ValidMembers(DocMembers(d))
    ensures Exec(DocProg(d), room).Line? && Parse(Exec(DocProg(d), room).text).Bad?
  {
    match d {
      case Flat(fs) => room := FlatMalformed(fs, Last("}"));
      case Nested(outer, name, inner) =>
        AppendValid(MembersOf(outer), JCons(name, JObj(MembersOf(inner)), JNil));
        if TameKeys(true, outer) {
          room := NestedMalformed(outer, name, inner);
        } else {
          room := FlatMalformed(outer, NestedProg(name, inner));
        }
    }
  }

  /** A number that is not finite makes the whole line unreadable. */
  lemma NotFiniteLine(d: Doc) returns (room: nat)
    requires ValidDoc(d) && JN.FloatMembers(DocMembers(d)) && !ValidMembers(DocMembers(d))
    ensures Exec(DocProg(d), room).Line? && Parse(Exec(DocProg(d), room).text).Bad?
  {
    room := |Render(JObj(DocMembers(d)))| + 1;
    RoomyLine(d, room);
    JN.ParseRenderIff(JObj(DocMembers(d)));
  }

  /** The lines of a program parse, whatever the size of the buffer. */
  ghost predicate AlwaysWellFormed(p: Prog)
  {
    forall room: nat :: Exec(p, room).Line? ==> Parse(Exec(p, room).text).Good?
  }

  /** All lines are well formed, for every buffer size, exactly when no dynamic key has a
      control byte without a short escape before its last byte and all numbers are finite. */
  lemma WellFormedIff(d: Doc)
    requires ValidDoc(d) && JN.FloatMembers(DocMembers(d))
    ensures AlwaysWellFormed(DocProg(d)) <==> TameDoc(true, d) && ValidMembers(DocMembers(d))
  {
    if !ValidMembers(DocMembers(d)) {
      var room := NotFiniteLine(d);
    } else if !TameDoc(true, d) {
      var room := MalformedLine(d);
    } else {
      forall room: nat | Exec(DocProg(d), room).Line? ensures Parse(Exec(DocProg(d), room).text).Good? {
        var c := LineParses(true, d, room);
      }
    }
  }
}
