/** The time text is written raw: a reader gets the timestamp back exactly when it holds no
    quotes, backslashes and control bytes. */
module JsonStamp {
  import opened FastAscii
  import opened JsonText
  import opened JsonPrinter
  import opened JsonDocument
  import opened JsonNumbers
  import opened JsonRecord
  import opened JsonChunks
  import JF = JsonFormat
  import JR = JsonReading

  predicate PlainChar(c: char) { c >= ' ' && c != '"' && c != '\\' }

  /** A string that ends before the quote at e is as long as its text only if the text is plain. */
  lemma {:induction false} EscapesShorten(t: string, i: nat, acc: string, e: nat)
    requires i <= e < |t| && t[e] == '"' && (i < e ==> t[e - 1] != '\\') && ParseString(t, i, acc).Good?
    ensures |ParseString(t, i, acc).value| <= |acc| + (e - i)
    ensures |ParseString(t, i, acc).value| == |acc| + (e - i) ==> forall k :: i <= k < e ==> PlainChar(t[k])
    decreases e - i
  {
    if i == e || t[i] == '"' {
    } else {
      var c := ParseChar(t, i);
      assert c.Good? && ParseString(t, i, acc) == ParseString(t, c.next, acc + [c.value]);
      CharEndsBefore(t, i, e);
      EscapesShorten(t, c.next, acc + [c.value], e);
    }
  }

  /** No escape reaches over the quote. */
  lemma CharEndsBefore(t: string, i: nat, e: nat)
    requires i < e < |t| && t[e] == '"' && t[e - 1] != '\\' && t[i] != '"' && ParseChar(t, i).Good?
    ensures i < ParseChar(t, i).next <= e && (PlainChar(t[i]) ==> ParseChar(t, i).next == i + 1)
    ensures !PlainChar(t[i]) ==> ParseChar(t, i).next > i + 1
  {
    if t[i] == '\\' {
      assert i + 1 < e;
      if t[i + 1] == 'u' {
        assert e != i + 2 && e != i + 3 && e != i + 4 && e != i + 5;
      }
    }
  }

  /** The text is an object whose first member is the timestamp. */
  ghost predicate Carries(t: string, stamp: string)
  {
    var p := Parse(t);
    p.Good? && p.value.JObj? && p.value.members.JCons? &&
    p.value.members.key == "timestamp" && p.value.members.value == JStr(stamp)
  }

  /** How every rendering begins. */
  predicate Begins(t: string, stamp: string)
  {
    Looks(t, 0, "{\"timestamp\":\"") && Looks(t, 14, stamp + "\"")
  }

  lemma ReadKey(t: string)
    requires Looks(t, 0, "{\"timestamp\":\"")
    ensures t[0] == '{' && t[1] == '"' && t[12] == ':' && t[13] == '"'
    ensures ParseString(t, 2, "") == Good("timestamp", 12)
  {
    var open := "{\"timestamp\":\"";
    assert open[0] == '{' && open[1] == '"' && open[12] == ':' && open[13] == '"';
    assert t[0 + 0] == open[0] && t[0 + 1] == open[1] && t[0 + 12] == open[12] && t[0 + 13] == open[13];
    KnownIsPlain("timestamp");
    PlainEscaped("timestamp");
    assert open == "{\"" + ("timestamp" + "\"" + ":\"");
    LooksSplit(t, 0, "{\"", "timestamp" + "\"" + ":\"");
    LooksSplit(t, 2, "timestamp" + "\"", ":\"");
    ParsePrintedString(t, 2, "timestamp");
  }

  /** What a reader takes for the timestamp. */
  lemma ReadStamp(t: string, stamp: string)
    requires Looks(t, 0, "{\"timestamp\":\"") && Carries(t, stamp)
    ensures ParseString(t, 14, "").Good? && ParseString(t, 14, "").value == stamp
  {
    ReadKey(t);
    var ms := ParseMembers(t, 1);
    assert ParseValue(t, 0) == Good(JObj(ms.value), ms.next);
    assert ms == ParseMember(t, "timestamp", 13);
    assert ParseValue(t, 13).value == JStr(stamp);
  }

  lemma CarriedIsPlain(t: string, stamp: string)
    requires Begins(t, stamp) && stamp != "" && stamp[|stamp| - 1] != '\\' && Carries(t, stamp)
    ensures PlainText(stamp)
  {
    var e := 14 + |stamp|;
    LooksSplit(t, 14, stamp, "\"");
    LooksChar(t, e, "\"");
    assert t[14 + (|stamp| - 1)] == stamp[|stamp| - 1];
    ReadStamp(t, stamp);
    EscapesShorten(t, 14, "", e);
    forall k | 0 <= k < |stamp| ensures PlainChar(stamp[k]) {
      assert t[14 + k] == stamp[k];
    }
  }

  lemma StampBegins(r: Record, key: string, k: Prog)
    requires ValidRecord(r)
    ensures Begins(Full(StampChunks(r, key, k)), Stamp(r))
  {
    var p := AddRaw(LevelName(r.level), k);
    FullRaw(NextText(key), p);
    FullRaw(Pad6(r.usec), AddRaw(NextText(key), p));
    FullRaw(".", AddRaw(Pad6(r.usec), AddRaw(NextText(key), p)));
    FullRaw(r.time, AddRaw(".", AddRaw(Pad6(r.usec), AddRaw(NextText(key), p))));
    FullRaw(FirstText("timestamp"), AddRaw(r.time, AddRaw(".", AddRaw(Pad6(r.usec), AddRaw(NextText(key), p)))));
    TextBegins(r.time, Pad6(r.usec), key, Full(p));
  }

  lemma TextBegins(time: string, usec: string, key: string, rest: string)
    ensures Begins(FirstText("timestamp") + (time + ("." + (usec + (NextText(key) + rest)))), time + "." + usec)
  {
    var stamp := time + "." + usec + "\"";
    var tail := ",\"" + key + "\":\"" + rest;
    var t := FirstText("timestamp") + (time + ("." + (usec + (NextText(key) + rest))));
    assert FirstText("timestamp") == "{\"timestamp\":\"";
    assert NextText(key) + rest == "\"" + tail;
    assert t == "{\"timestamp\":\"" + (stamp + tail);
    assert Looks(t, 0, "{\"timestamp\":\"" + (stamp + tail));
    LooksSplit(t, 0, "{\"timestamp\":\"", stamp + tail);
    LooksSplit(t, 14, stamp, tail);
  }

  lemma StampEnds(r: Record)
    requires ValidRecord(r)
    ensures Stamp(r) != "" && Stamp(r)[|Stamp(r)| - 1] != '\\'
    ensures PlainText(Stamp(r)) ==> PlainText(r.time)
  {
    var s := Stamp(r);
    assert s[|s| - 1] == Pad6(r.usec)[5];
    if PlainText(s) {
      forall k | 0 <= k < |r.time| ensures PlainChar(r.time[k]) {
        assert s[k] == r.time[k];
      }
    }
  }

  /** The whole line of a record carries its timestamp exactly when the time text is plain. */
  lemma TimestampIff(r: Record)
    requires ValidRecord(r) && JF.FiniteAttributes(r.kvs)
    ensures Carries(Full(JsonLineChunks(r)), Stamp(r)) <==> PlainText(r.time)
    ensures Carries(Full(OtelLineChunks(r)), Stamp(r)) <==> PlainText(r.time)
  {
    StampEnds(r);
    StampBegins(r, "level", ModuleChunks(r));
    StampBegins(r, "severity", SeverityChunks(r));
    if PlainText(r.time) {
      PlainIsCarried(r);
      PlainIsCarriedByOtel(r);
    } else {
      if Carries(Full(JsonLineChunks(r)), Stamp(r)) {
        CarriedIsPlain(Full(JsonLineChunks(r)), Stamp(r));
      }
      if Carries(Full(OtelLineChunks(r)), Stamp(r)) {
        CarriedIsPlain(Full(OtelLineChunks(r)), Stamp(r));
      }
    }
  }

  lemma PlainIsCarried(r: Record)
    requires ValidRecord(r) && JF.FiniteAttributes(r.kvs) && PlainText(r.time)
    ensures Carries(Full(JsonLineChunks(r)), Stamp(r))
  {
    JsonChunksPrint(r);
    JF.FiniteJson(r);
    FullDoc(JsonDoc(r));
    ParseRender(JObj(DocMembers(JsonDoc(r))));
  }

  lemma PlainIsCarriedByOtel(r: Record)
    requires ValidRecord(r) && JF.FiniteAttributes(r.kvs) && PlainText(r.time)
    ensures Carries(Full(OtelLineChunks(r)), Stamp(r))
  {
    OtelChunksPrint(r);
    JF.FiniteOtel(r);
    FullDoc(OtelDoc(r));
    ParseRender(JObj(DocMembers(OtelDoc(r))));
  }

  /** Parsing the text gives the document back. */
  ghost predicate ReadsBack(t: string, d: Doc)
  {
    Parse(t) == Good(JObj(DocMembers(d)), |t|)
  }

  /** A stamp that is told is the one that was written. */
  lemma StampIsRead(t: string, r: Record, ms: Members)
    requires ValidRecord(r) && Begins(t, Stamp(r)) && Parse(t) == Good(JObj(ms), |t|)
    requires ms.JCons? && ms.key == "timestamp" && JR.IsStamp(JR.Found(ms.value), r.time, r.usec)
    ensures PlainText(r.time)
  {
    var digits :|
      |digits| == 6 && AllDigits(digits) && Value(digits) == r.usec && JR.Found(ms.value) ==
      JR.Found(JStr(r.time + "." + digits));
    Pad6Value(r.usec);
    SameDigits(digits, Pad6(r.usec));
    StampEnds(r);
    CarriedIsPlain(t, Stamp(r));
  }

  lemma JsonReadIsPlain(t: string, r: Record)
    requires ValidRecord(r) && Begins(t, Stamp(r)) && JR.JsonReads(t, r)
    ensures PlainText(r.time) && Parse(t).Good?
  {
    var ms :| Parse(t) == Good(JObj(ms), |t|) && JR.JsonTells(ms, r);
    StampIsRead(t, r, ms);
  }

  lemma OtelReadIsPlain(t: string, r: Record)
    requires ValidRecord(r) && Begins(t, Stamp(r)) && JR.OtelReads(t, r)
    ensures PlainText(r.time) && Parse(t).Good?
  {
    var ms :| Parse(t) == Good(JObj(ms), |t|) && JR.OtelTells(ms, r);
    StampIsRead(t, r, ms);
  }

  lemma PrintedReadsBack(d: Doc, t: string)
    requires FloatMembers(DocMembers(d)) && t == Render(JObj(DocMembers(d)))
    ensures Parse(t).Good? <==> ValidMembers(DocMembers(d))
    ensures Parse(t).Good? <==> ReadsBack(t, d)
  {
    var v := JObj(DocMembers(d));
    ParseRenderIff(v);
    if ValidJson(v) {
      ParseRender(v);
    }
  }

  lemma BackIsPlain(t: string, r: Record, d: Doc)
    requires ValidRecord(r) && Begins(t, Stamp(r)) && ReadsBack(t, d)
    requires d == JsonDoc(r) || d == OtelDoc(r)
    ensures PlainText(r.time)
  {
    StampEnds(r);
    CarriedIsPlain(t, Stamp(r));
  }

  lemma JsonPlainReads(t: string, r: Record)
    requires ValidRecord(r) && PlainText(r.time) && t == Full(JsonLineChunks(r))
    ensures Parse(t).Good? <==> JF.FiniteAttributes(r.kvs)
    ensures Parse(t).Good? ==> ReadsBack(t, JsonDoc(r)) && JR.JsonReads(t, r)
  {
    JF.FiniteJson(r);
    JsonChunksPrint(r);
    FullDoc(JsonDoc(r));
    PrintedReadsBack(JsonDoc(r), t);
    JR.JsonDocTells(r);
  }

  lemma OtelPlainReads(t: string, r: Record)
    requires ValidRecord(r) && PlainText(r.time) && t == Full(OtelLineChunks(r))
    ensures Parse(t).Good? <==> JF.FiniteAttributes(r.kvs)
    ensures Parse(t).Good? ==> ReadsBack(t, OtelDoc(r)) && JR.OtelReads(t, r)
  {
    JF.FiniteOtel(r);
    OtelChunksPrint(r);
    FullDoc(OtelDoc(r));
    PrintedReadsBack(OtelDoc(r), t);
    JR.OtelDocTells(r);
  }

  /** The whole JSON line of any record parses to members that tell the record exactly when the time
      text is plain and no floating point attribute is infinite or NaN. */
  lemma JsonReadBackIff(r: Record, t: string)
    requires ValidRecord(r) && t == Full(JsonLineChunks(r))
    ensures JR.JsonReads(t, r) <==> JF.Readable(r)
    ensures ReadsBack(t, JsonDoc(r)) <==> JF.Readable(r)
  {
    StampBegins(r, "level", ModuleChunks(r));
    if PlainText(r.time) {
      JsonPlainReads(t, r);
    }
    if JR.JsonReads(t, r) {
      JsonReadIsPlain(t, r);
    }
    if ReadsBack(t, JsonDoc(r)) {
      BackIsPlain(t, r, JsonDoc(r));
    }
  }

  /** The same for the OTel line. */
  lemma OtelReadBackIff(r: Record, t: string)
    requires ValidRecord(r) && t == Full(OtelLineChunks(r))
    ensures JR.OtelReads(t, r) <==> JF.Readable(r)
    ensures ReadsBack(t, OtelDoc(r)) <==> JF.Readable(r)
  {
    StampBegins(r, "severity", SeverityChunks(r));
    if PlainText(r.time) {
      OtelPlainReads(t, r);
    }
    if JR.OtelReads(t, r) {
      OtelReadIsPlain(t, r);
    }
    if ReadsBack(t, OtelDoc(r)) {
      BackIsPlain(t, r, OtelDoc(r));
    }
  }
}
