/** Whole lines: an object, or an object whose last member is an object. */
module JsonDocument {
  import opened CStrings
  import opened JsonText
  import opened JsonPrinter
  import opened JsonCut

  datatype Doc = Flat(fs: Fields) | Nested(outer: Fields, name: string, inner: Fields)

  function NestedProg(name: string, inner: Fields): Prog
  {
    AddRaw(KeyText(false, name) + "{", FieldsProg(true, inner, "\"" + "}}", Last("}}")))
  }

  function DocProg(d: Doc): Prog
  {
    match d
    case Flat(fs) => AddRaw("{", FieldsProg(true, fs, "\"" + "}", Last("}")))
    case Nested(outer, name, inner) => AddRaw("{", FieldsProg(true, outer, "\"" + "}", NestedProg(name, inner)))
  }

  function Append(a: Members, b: Members): Members
  {
    if a.JNil? then b else JCons(a.key, a.value, Append(a.rest, b))
  }

  function DocMembers(d: Doc): Members
  {
    match d
    case Flat(fs) => MembersOf(fs)
    case Nested(outer, name, inner) => Append(MembersOf(outer), JCons(name, JObj(MembersOf(inner)), JNil))
  }

  predicate TameDoc(loose: bool, d: Doc)
  {
    match d
    case Flat(fs) => TameKeys(loose, fs)
    case Nested(outer, _, inner) => TameKeys(loose, outer) && TameKeys(loose, inner)
  }

  predicate ValidDoc(d: Doc)
  {
    d.Nested? ==> d.outer.FCons?
  }

  // ---- members in a row ----

  lemma {:induction false} RenderAppend(first: bool, a: Members, b: Members)
    ensures RenderMembers(first, Append(a, b)) == RenderMembers(first, a) + RenderMembers(first && a.JNil?, b)
  {
    if a.JCons? {
      RenderAppend(false, a.rest, b);
      RegroupBefore(KeyText(first, a.key), Render(a.value), RenderMembers(false, a.rest), RenderMembers(false, b));
    } else {
      assert "" + RenderMembers(first, b) == RenderMembers(first, b);
    }
  }

  lemma {:induction false} CutOfFirst(loose: bool, c: Members, a: Members, b: Members)
    requires IsCut(loose, c, a)
    ensures IsCut(loose, c, Append(a, b))
  {
    if c.JCons? && c.rest.JCons? {
      CutOfFirst(loose, c.rest, a.rest, b);
    }
  }

  lemma {:induction false} CutOfSecond(loose: bool, a: Members, c: Members, b: Members)
    requires IsCut(loose, c, b) && c.JCons?
    ensures IsCut(loose, Append(a, c), Append(a, b))
  {
    if a.JNil? {
    } else {
      CutOfSecond(loose, a.rest, c, b);
    }
  }

  lemma RenderNested(a: Members, name: string, inner: Members)
    requires a.JCons?
    ensures "{" + RenderMembers(true, Append(a, JCons(name, JObj(inner), JNil))) + "}" ==
            "{" + (RenderMembers(true, a) + (KeyText(false, name) + "{" + (RenderMembers(true, inner) + "}}")))
  {
    RenderAppend(true, a, JCons(name, JObj(inner), JNil));
    Braces(RenderMembers(true, a), KeyText(false, name), RenderMembers(true, inner));
  }

  lemma Braces(a: string, k: string, m: string)
    ensures "{" + (a + (k + ("{" + m + "}" + ""))) + "}" == "{" + (a + (k + "{" + (m + "}}")))
  {
    assert k + ("{" + m + "}" + "") + "}" == k + "{" + (m + "}}");
    assert "{" + (a + (k + ("{" + m + "}" + ""))) + "}" == "{" + (a + (k + ("{" + m + "}" + "") + "}"));
  }

  // ---- lines ----

  lemma BraceLine(p: Prog, room: nat)
    requires Exec(AddRaw("{", p), room).Line?
    ensures room > 1 && Exec(p, room - 1).Line? && Exec(AddRaw("{", p), room).text == "{" + Exec(p, room - 1).text
  {
    RawGoesOn("{", p, room);
  }

  lemma FlatLine(loose: bool, fs: Fields, room: nat) returns (c: Members)
    requires TameKeys(loose, fs) && Exec(DocProg(Flat(fs)), room).Line?
    ensures IsCut(loose, c, MembersOf(fs)) && Exec(DocProg(Flat(fs)), room).text == Render(JObj(c))
  {
    BraceLine(FieldsProg(true, fs, "\"" + "}", Last("}")), room);
    c := CutObject(loose, fs, "}", room - 1);
    assert "{" + (RenderMembers(true, c) + "}") == "{" + RenderMembers(true, c) + "}";
  }

  lemma NestedTail(loose: bool, name: string, inner: Fields, room: nat) returns (c: Members)
    requires TameKeys(loose, inner) && Exec(NestedProg(name, inner), room).Line?
    ensures room > 5 && IsCut(loose, c, MembersOf(inner))
    ensures Exec(NestedProg(name, inner), room).text == KeyText(false, name) + "{" + (RenderMembers(true, c) + "}}")
  {
    OpenLength(name);
    c := ObjectTail(loose, KeyText(false, name) + "{", inner, "}}", room);
  }

  lemma OpenLength(name: string)
    ensures |KeyText(false, name) + "{"| >= 5
  {
  }

  lemma LeftBehind(open: string, p: Prog, room: nat) returns (r: nat)
    requires Exec(AddRaw(open, p), room).Line?
    ensures room == |open| + r > |open| && Exec(p, r).Line?
    ensures Exec(AddRaw(open, p), room).text == open + Exec(p, r).text
  {
    RawGoesOn(open, p, room);
    r := room - |open|;
  }

  lemma ObjectTail(loose: bool, open: string, inner: Fields, close: string, room: nat) returns (c: Members)
    requires TameKeys(loose, inner) && close != ""
    requires Exec(AddRaw(open, FieldsProg(true, inner, "\"" + close, Last(close))), room).Line?
    ensures |open| < room && IsCut(loose, c, MembersOf(inner))
    ensures Exec(AddRaw(open, FieldsProg(true, inner, "\"" + close, Last(close))), room).text ==
            open + (RenderMembers(true, c) + close)
  {
    var p := FieldsProg(true, inner, "\"" + close, Last(close));
    var r := LeftBehind(open, p, room);
    c := CutObject(loose, inner, close, r);
  }

  lemma NestedCut(loose: bool, outer: Fields, name: string, inner: Fields, ci: Members) returns (c: Members)
    requires outer.FCons? && IsCut(loose, ci, MembersOf(inner))
    ensures IsCut(loose, c, DocMembers(Nested(outer, name, inner)))
    ensures Render(JObj(c)) ==
            "{" + (RenderMembers(true, MembersOf(outer)) + (KeyText(false, name) + "{" + (RenderMembers(true, ci) +
              "}}")))
  {
    var all := MembersOf(outer);
    c := Append(all, JCons(name, JObj(ci), JNil));
    CutOfSecond(loose, all, JCons(name, JObj(ci), JNil), JCons(name, JObj(MembersOf(inner)), JNil));
    RenderNested(all, name, ci);
  }

  lemma OuterCut(loose: bool, outer: Fields, name: string, inner: Fields, c: Members)
    requires IsCut(loose, c, MembersOf(outer))
    ensures IsCut(loose, c, DocMembers(Nested(outer, name, inner)))
    ensures Render(JObj(c)) == "{" + (RenderMembers(true, c) + "}")
  {
    CutOfFirst(loose, c, MembersOf(outer), JCons(name, JObj(MembersOf(inner)), JNil));
  }

  lemma NestedLine(loose: bool, outer: Fields, name: string, inner: Fields, room: nat) returns (c: Members)
    requires outer.FCons? && TameKeys(loose, outer) && TameKeys(loose, inner)
    requires Exec(DocProg(Nested(outer, name, inner)), room).Line?
    ensures IsCut(loose, c, DocMembers(Nested(outer, name, inner)))
    ensures Exec(DocProg(Nested(outer, name, inner)), room).text == Render(JObj(c))
  {
    BraceLine(FieldsProg(true, outer, "\"" + "}", NestedProg(name, inner)), room);
    var left, tail, closed;
    c, left, tail, closed := CutFields(loose, true, outer, "}", NestedProg(name, inner), room - 1);
    if closed {
      OuterCut(loose, outer, name, inner, c);
    } else {
      var ci := NestedTail(loose, name, inner, left);
      c := NestedCut(loose, outer, name, inner, ci);
    }
  }

  /** Every line is a JSON text that parses to a cut of the document. */
  lemma LineParses(loose: bool, d: Doc, room: nat) returns (c: Members)
    requires ValidDoc(d) && TameDoc(loose, d) && ValidMembers(DocMembers(d)) && Exec(DocProg(d), room).Line?
    ensures IsCut(loose, c, DocMembers(d))
    ensures Parse(Exec(DocProg(d), room).text) == Good(JObj(c), |Exec(DocProg(d), room).text|)
  {
    match d {
      case Flat(fs) => c := FlatLine(loose, fs, room);
      case Nested(outer, name, inner) => c := NestedLine(loose, outer, name, inner, room);
    }
    CutIsValid(loose, c, DocMembers(d));
    ParseRender(JObj(c));
  }

  lemma FullDoc(d: Doc)
    requires ValidDoc(d)
    ensures Full(DocProg(d)) == Render(JObj(DocMembers(d)))
  {
    match d {
      case Flat(fs) =>
        FullRaw("{", FieldsProg(true, fs, "\"" + "}", Last("}")));
        FullFields(true, fs, "\"" + "}", Last("}"));
        assert "{" + (RenderMembers(true, MembersOf(fs)) + "}") == "{" + RenderMembers(true, MembersOf(fs)) + "}";
      case Nested(outer, name, inner) =>
        FullRaw("{", FieldsProg(true, outer, "\"" + "}", NestedProg(name, inner)));
        FullFields(true, outer, "\"" + "}", NestedProg(name, inner));
        FullRaw(KeyText(false, name) + "{", FieldsProg(true, inner, "\"" + "}}", Last("}}")));
        FullFields(true, inner, "\"" + "}}", Last("}}"));
        RenderNested(MembersOf(outer), name, MembersOf(inner));
    }
  }

  /** A buffer that holds the whole text and a NUL gets the whole text. */
  lemma RoomyLine(d: Doc, room: nat)
    requires ValidDoc(d) && |Render(JObj(DocMembers(d)))| < room
    ensures Exec(DocProg(d), room) == Line(Render(JObj(DocMembers(d))))
  {
    FullDoc(d);
    ExecFull(DocProg(d), room);
  }

  /** The whole text parses back. */
  lemma RoomyLineIsWhole(d: Doc, room: nat)
    requires ValidDoc(d) && ValidMembers(DocMembers(d)) && |Render(JObj(DocMembers(d)))| < room
    ensures Exec(DocProg(d), room) == Line(Render(JObj(DocMembers(d))))
    ensures Parse(Exec(DocProg(d), room).text) == Good(JObj(DocMembers(d)), |Render(JObj(DocMembers(d)))|)
  {
    RoomyLine(d, room);
    ParseRender(JObj(DocMembers(d)));
  }
}
