/** When a bounded line is all or nothing: a string can be cut in a line that is returned only in
    front of a control byte without a short escape, so text without such bytes is never cut. */
module JsonWhole {
  import opened JsonText
  import opened JsonPrinter
  import opened JsonCut
  import opened JsonDocument
  import opened JsonRecord
  import opened JsonChunks

  /** What a line without cuts is: the whole text, when it fits with a NUL. */
  function WholeLine(p: Prog, room: nat): Outcome
  {
    if |Full(p)| < room then Line(Full(p)) else Dropped
  }

  /** The shape of the renderers' programs: closers of two to five bytes, and at least two raw
      bytes behind every string. */
  predicate Shaped(p: Prog)
  {
    p.Seg? ==> 2 <= |p.closer| <= 5 && |p.rest.text| >= 2 && Shaped(p.rest)
  }

  predicate EndsInControl(s: string) { s != "" && IsRawControl(s[|s| - 1]) }

  /** Every string is free of control bytes without a short escape, except that one may be the
      last byte of a string with at least six bytes of text behind it. */
  predicate Solid(p: Prog)
  {
    p.Seg? ==> Tame(true, p.s) && (EndsInControl(p.s) ==> |Full(p.rest)| >= 6) && Solid(p.rest)
  }

  // ---- solid programs ----

  lemma StarvesAt(s: string, room: nat)
    requires room > 0 && Fit(s, 0, room) < |s| && !IsRawControl(s[Fit(s, 0, room)])
    ensures Left(s, room) <= 2
  {
    StopsShort(s, room);
  }

  /** Nothing follows a string that is cut, unless only a control byte at its end is missing. */
  lemma CutIsDropped(s: string, closer: string, rest: Prog, room: nat)
    requires room > 0 && |closer| >= 2 && |rest.text| >= 2 && Fit(s, 0, room) < |s| && Tame(true, s)
    requires EndsInControl(s) ==> Exec(rest, Left(s, room)).Dropped?
    ensures ExecBehind(s, closer, rest, room).Dropped?
  {
    var n := Fit(s, 0, room);
    if IsRawControl(s[n]) {
      assert n == |s| - 1;
    } else {
      StarvesAt(s, room);
    }
  }

  lemma SegIsDropped(p: Prog, r: nat)
    requires p.Seg? && Shaped(p) && Solid(p) && 0 < r <= |Full(p)| - |p.text|
    requires Exec(p.rest, Left(p.s, r)) == WholeLine(p.rest, Left(p.s, r))
    ensures ExecBehind(p.s, p.closer, p.rest, r).Dropped?
  {
    if Fit(p.s, 0, r) == |p.s| {
      assert Left(p.s, r) == r - |Escaped(p.s)|;
    } else {
      assert Left(p.s, r) <= 6 by { StopsShort(p.s, r); }
      CutIsDropped(p.s, p.closer, p.rest, r);
    }
  }

  lemma {:induction false} WholeOrDropped(p: Prog, room: nat)
    requires Shaped(p) && Solid(p)
    ensures Exec(p, room) == WholeLine(p, room)
    decreases p
  {
    if |Full(p)| < room {
      ExecFull(p, room);
    } else if p.Seg? && |p.text| < room {
      var r := room - |p.text|;
      WholeOrDropped(p.rest, Left(p.s, r));
      SegIsDropped(p, r);
      assert ExecStr(p.s, p.closer, p.rest, r).Dropped?;
    }
  }

  // ---- other programs ----

  /** In front of byte i, with the room its escape would take. */
  lemma StopsAt(s: string, i: nat, room: nat)
    requires i < |s| && room == |EscTo(s, i)| + |Esc(s[i])|
    ensures room > 0 && Fit(s, 0, room) == i && Left(s, room) == |Esc(s[i])| && room <= |Escaped(s)|
  {
    assert |EscTo(s, i + 1)| == room;
    FitAt(s, 0, i, room);
    EscToGrows(s, i + 1, |s|);
  }

  lemma SegLength(p: Prog)
    requires p.Seg?
    ensures |Full(p)| == |p.text| + |Escaped(p.s)| + |Full(p.rest)|
  {
  }

  lemma SegIsLine(p: Prog, r: nat)
    requires p.Seg? && r > 0 && ExecBehind(p.s, p.closer, p.rest, r).Line?
    ensures Exec(p, |p.text| + r).Line?
  {
  }

  /** A control byte that is not the last byte: the line is closed in front of it. */
  lemma ClosedAt(p: Prog, i: nat) returns (room: nat)
    requires p.Seg? && Shaped(p) && i < |p.s| - 1 && IsRawControl(p.s[i])
    ensures room <= |Full(p)| && Exec(p, room).Line?
  {
    var r := |EscTo(p.s, i)| + |Esc(p.s[i])|;
    StopsAt(p.s, i, r);
    SegLength(p);
    room := |p.text| + r;
    assert ExecBehind(p.s, p.closer, p.rest, r) == Line(p.closer);
    SegIsLine(p, r);
  }

  /** A control byte at the end with little behind it: the byte is dropped, and the rest fits. */
  lemma DroppedAtEnd(p: Prog) returns (room: nat)
    requires p.Seg? && EndsInControl(p.s) && |Full(p.rest)| < 6
    ensures room <= |Full(p)| && Exec(p, room).Line?
  {
    var i := |p.s| - 1;
    var r := |EscTo(p.s, i)| + |Esc(p.s[i])|;
    StopsAt(p.s, i, r);
    SegLength(p);
    room := |p.text| + r;
    ExecFull(p.rest, 6);
    assert ExecBehind(p.s, p.closer, p.rest, r) == Exec(p.rest, 6);
    SegIsLine(p, r);
  }

  /** The same behind a string that fits. */
  lemma CutBehind(p: Prog, r: nat) returns (room: nat)
    requires p.Seg? && r <= |Full(p.rest)| && Exec(p.rest, r).Line?
    ensures room <= |Full(p)| && Exec(p, room).Line?
  {
    var n := |Escaped(p.s)| + r;
    WholeFits(p.s, n);
    SegLength(p);
    room := |p.text| + n;
    assert ExecBehind(p.s, p.closer, p.rest, n) == Exec(p.rest, r);
    SegIsLine(p, n);
  }

  lemma {:induction false} CutSomewhere(p: Prog) returns (room: nat)
    requires Shaped(p) && !Solid(p)
    ensures room <= |Full(p)| && Exec(p, room).Line?
    decreases p
  {
    if !Tame(true, p.s) {
      var i :| 0 <= i < |p.s| - 1 && IsRawControl(p.s[i]);
      room := ClosedAt(p, i);
    } else if EndsInControl(p.s) && |Full(p.rest)| < 6 {
      room := DroppedAtEnd(p);
    } else {
      var r := CutSomewhere(p.rest);
      room := CutBehind(p, r);
    }
  }

  /** For every buffer size the whole line or none is returned, exactly for solid programs. */
  lemma WholeIff(p: Prog)
    requires Shaped(p)
    ensures (forall room :: Exec(p, room) == WholeLine(p, room)) <==> Solid(p)
  {
    if Solid(p) {
      forall room ensures Exec(p, room) == WholeLine(p, room) {
        WholeOrDropped(p, room);
      }
    } else {
      var room := CutSomewhere(p);
      assert Exec(p, room) != WholeLine(p, room);
    }
  }

  // ---- documents ----

  /** No dynamic key and no string holds a control byte without a short escape. */
  predicate TameFields(fs: Fields)
  {
    fs.FCons? ==>
      (fs.dynamic ==> Tame(false, fs.key)) && (fs.value.Text? ==> Tame(false, fs.value.s)) && TameFields(fs.rest)
  }

  predicate TameTexts(d: Doc)
  {
    match d
    case Flat(fs) => TameFields(fs)
    case Nested(outer, _, inner) => TameFields(outer) && TameFields(inner)
  }

  lemma {:induction false} FieldsAreShaped(first: bool, fs: Fields, closer: string, k: Prog)
    requires 2 <= |closer| <= 5 && k.text != "" && Shaped(k)
    ensures Shaped(FieldsProg(first, fs, closer, k))
    decreases fs
  {
    if fs.FNil? {
    } else {
      FieldsAreShaped(false, fs.rest, closer, k);
      FieldsBegin(false, fs.rest, closer, k);
    }
  }

  lemma {:induction false} FieldsAreSolid(first: bool, fs: Fields, closer: string, k: Prog)
    requires TameFields(fs) && Solid(k)
    ensures Solid(FieldsProg(first, fs, closer, k))
    decreases fs
  {
    if fs.FNil? {
    } else {
      FieldsAreSolid(false, fs.rest, closer, k);
    }
  }

  lemma DocIsShaped(d: Doc)
    ensures Shaped(DocProg(d))
  {
    match d {
      case Flat(fs) => FieldsAreShaped(true, fs, "\"" + "}", Last("}"));
      case Nested(outer, name, inner) =>
        FieldsAreShaped(true, inner, "\"" + "}}", Last("}}"));
        FieldsAreShaped(true, outer, "\"" + "}", NestedProg(name, inner));
    }
  }

  lemma DocIsSolid(d: Doc)
    requires TameTexts(d)
    ensures Solid(DocProg(d))
  {
    match d {
      case Flat(fs) => FieldsAreSolid(true, fs, "\"" + "}", Last("}"));
      case Nested(outer, name, inner) =>
        FieldsAreSolid(true, inner, "\"" + "}}", Last("}}"));
        FieldsAreSolid(true, outer, "\"" + "}", NestedProg(name, inner));
    }
  }

  /** A document without such bytes is printed whole or not at all. */
  lemma TameDocIsWhole(d: Doc, room: nat)
    requires ValidDoc(d) && TameTexts(d)
    ensures var text := Render(JObj(DocMembers(d)));
      Exec(DocProg(d), room) == if |text| < room then Line(text) else Dropped
  {
    DocIsShaped(d);
    DocIsSolid(d);
    FullDoc(d);
    WholeOrDropped(DocProg(d), room);
  }

  // ---- records ----

  predicate TameKv(kv: Kv)
  {
    kv.key.Present? ==> Tame(false, kv.key.str) && (kv.value.KvStr? ==> Tame(false, OrEmpty(kv.value.str)))
  }

  /** No string of the record holds a control byte without a short escape. */
  predicate TameRecord(r: Record)
  {
    Tame(false, OrEmpty(r.moduleName)) && Tame(false, OrEmpty(r.file)) && Tame(false, OrEmpty(r.func)) &&
    Tame(false, OrEmpty(r.tag)) && Tame(false, OrEmpty(r.message)) &&
    forall i :: 0 <= i < |r.kvs| ==> TameKv(r.kvs[i])
  }

  lemma {:induction false} TameAttributes(kvs: seq<Kv>, i: nat)
    requires i <= |kvs| && forall k :: 0 <= k < |kvs| ==> TameKv(kvs[k])
    ensures TameFields(KvFields(kvs, i))
    decreases |kvs| - i
  {
    if i == |kvs| {
    } else {
      TameAttributes(kvs, i + 1);
    }
  }

  lemma TameSource(r: Record, rest: Fields)
    requires TameRecord(r) && TameFields(rest)
    ensures TameFields(SourceFields(r, rest))
  {
    var thread := ThreadFields(r, rest);
    var func := FCons(false, "func", Text(OrEmpty(r.func)), thread);
    assert TameFields(thread);
    assert TameFields(FCons(false, "line", Fixed(JInt(r.line)), func));
  }

  lemma TameTrace(r: Record, rest: Fields)
    requires ValidRecord(r) && TameFields(rest)
    ensures TameFields(TraceFields(r, rest))
  {
  }

  lemma TameDocs(r: Record)
    requires ValidRecord(r) && TameRecord(r)
    ensures TameTexts(JsonDoc(r)) && TameTexts(OtelDoc(r))
  {
    TameAttributes(r.kvs, 0);
    var message := FCons(false, "message", Text(OrEmpty(r.message)), KvFields(r.kvs, 0));
    TameTrace(r, message);
    TameSource(r, TraceFields(r, message));
    TameSource(r, KvFields(r.kvs, 0));
    TameTrace(r, FCons(false, "body", Text(OrEmpty(r.message)), FNil));
  }

  /** The same record without the text of its second. */
  function Untimed(r: Record): (u: Record)
    requires ValidRecord(r)
    ensures ValidRecord(u) && PlainText(u.time)
  {
    r.(time := "")
  }

  /** The time is raw text in front of the first string, so it does not matter here. */
  lemma JsonUntimed(r: Record)
    requires ValidRecord(r)
    ensures Shaped(JsonLineChunks(r)) && (TameRecord(r) ==> Solid(JsonLineChunks(r)))
  {
    var u := Untimed(r);
    JsonChunksPrint(u);
    DocIsShaped(JsonDoc(u));
    if TameRecord(r) {
      TameDocs(u);
      DocIsSolid(JsonDoc(u));
    }
    assert ModuleChunks(u) == ModuleChunks(r);
  }

  lemma OtelUntimed(r: Record)
    requires ValidRecord(r)
    ensures Shaped(OtelLineChunks(r)) && (TameRecord(r) ==> Solid(OtelLineChunks(r)))
  {
    var u := Untimed(r);
    OtelChunksPrint(u);
    DocIsShaped(OtelDoc(u));
    if TameRecord(r) {
      TameDocs(u);
      DocIsSolid(OtelDoc(u));
    }
    assert SeverityChunks(u) == SeverityChunks(r);
  }

  /** Both renderings of any record return the whole line or none, for every buffer size, exactly
      when their programs are solid; records without such control bytes are. */
  lemma RecordIsWholeIff(r: Record)
    requires ValidRecord(r)
    ensures (forall n :: Exec(JsonLineChunks(r), n) == WholeLine(JsonLineChunks(r), n)) <==> Solid(JsonLineChunks(r))
    ensures (forall n :: Exec(OtelLineChunks(r), n) == WholeLine(OtelLineChunks(r), n)) <==> Solid(OtelLineChunks(r))
    ensures TameRecord(r) ==> Solid(JsonLineChunks(r)) && Solid(OtelLineChunks(r))
  {
    JsonUntimed(r);
    WholeIff(JsonLineChunks(r));
    OtelUntimed(r);
    WholeIff(OtelLineChunks(r));
  }
}
