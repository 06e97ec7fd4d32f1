/** Floating point texts in JSON: what the C library prints for finite values is a number of
    RFC 8259, what it prints for infinities and NaN makes the text unreadable. */
module JsonNumbers {
  import opened JsonText

  /** What a floating point conversion prints for a value that is not finite. */
  predicate NotFinite(text: string)
  {
    text == "nan" || text == "-nan" || text == "inf" || text == "-inf"
  }

  predicate FloatText(text: string) { IsNumber(text) || NotFinite(text) }

  predicate FloatJson(v: Json)
    decreases v
  {
    (v.JNum? ==> FloatText(v.text)) && (v.JObj? ==> FloatMembers(v.members))
  }

  predicate FloatMembers(ms: Members)
    decreases ms
  {
    ms.JCons? ==> FloatJson(ms.value) && FloatMembers(ms.rest)
  }

  lemma NotFiniteFails(t: string, i: nat, text: string)
    requires NotFinite(text) && Looks(t, i, text)
    ensures ParseValue(t, i).Bad?
  {
    LooksChar(t, i, text);
    assert t[i + 1] == text[1];
    NotAWord(t, i);
  }

  /** A value with a number that is not finite does not parse. */
  lemma {:induction false} BadValueFails(t: string, i: nat, v: Json)
    requires FloatJson(v) && !ValidJson(v) && Looks(t, i, Render(v))
    ensures ParseValue(t, i).Bad?
    decreases v, 0
  {
    if v.JNum? {
      NotFiniteFails(t, i, v.text);
    } else {
      SplitObject(t, i, v.members);
      BadMembersFail(t, i + 1, v.members);
    }
  }

  lemma {:induction false} BadMembersFail(t: string, i: nat, ms: Members)
    requires FloatMembers(ms) && !ValidMembers(ms) && Looks(t, i, RenderMembers(true, ms) + "}")
    ensures ParseMembers(t, i).Bad?
    decreases ms, 3
  {
    var key := KeyText(true, ms.key);
    var j := i + |key|;
    assert Looks(t, i, key) && Looks(t, j, Render(ms.value)) && Looks(t, j + |Render(ms.value)|, Tail(ms.rest)) by {
      MembersShape(ms);
      LooksThree(t, i, key, Render(ms.value), Tail(ms.rest));
    }
    BadMemberFails(t, j, ms);
    KeyThenBad(t, i, ms.key, j);
  }

  lemma {:induction false} BadMemberFails(t: string, i: nat, ms: Members)
    requires FloatMembers(ms) && !ValidMembers(ms)
    requires Looks(t, i, Render(ms.value)) && Looks(t, i + |Render(ms.value)|, Tail(ms.rest))
    ensures ParseMember(t, ms.key, i).Bad?
    decreases ms, 2
  {
    var n := i + |Render(ms.value)|;
    LooksChar(t, n, Tail(ms.rest));
    if ValidJson(ms.value) {
      assert ParseValue(t, i) == Good(ms.value, n) by { ParsePrinted(t, i, ms.value); }
      assert ParseMore(t, ms.key, ms.value, n).Bad? by { BadTailFails(t, n, ms); }
    } else {
      BadValueFails(t, i, ms.value);
    }
  }

  lemma {:induction false} BadTailFails(t: string, i: nat, ms: Members)
    requires ms.JCons? && FloatMembers(ms.rest) && !ValidMembers(ms.rest) && Looks(t, i, Tail(ms.rest))
    ensures i < |t| && ParseMore(t, ms.key, ms.value, i).Bad?
    decreases ms, 1
  {
    LooksChar(t, i, Tail(ms.rest));
    LooksSplit(t, i, ",", RenderMembers(true, ms.rest) + "}");
    BadMembersFail(t, i + 1, ms.rest);
  }

  /** The printed text parses exactly when all numbers are finite. */
  lemma ParseRenderIff(v: Json)
    requires FloatJson(v)
    ensures Parse(Render(v)).Good? <==> ValidJson(v)
  {
    if ValidJson(v) {
      ParseRender(v);
    } else {
      assert Looks(Render(v), 0, Render(v));
      BadValueFails(Render(v), 0, v);
    }
  }
}
