/** Every line the bounded printer produces is an object with the first members of the full
    object, of which only the last one may be cut. */
module JsonCut {
  import opened CStrings
  import opened JsonText
  import opened JsonPrinter

  // ---- cuts ----

  /** `loose` admits a key that lost a final control byte. */
  predicate CutKey(loose: bool, c: string, key: string)
  {
    c == key || (loose && key != "" && IsRawControl(key[|key| - 1]) && c == key[..|key| - 1])
  }

  /** A string is cut only in front of a control byte without a short escape, and so never
      inside a UTF-8 sequence. */
  predicate CutString(c: string, s: string)
  {
    c <= s && (|c| < |s| ==> IsRawControl(s[|c|]))
  }

  predicate CutJson(loose: bool, c: Json, v: Json)
    decreases v
  {
    c == v || (c.JStr? && v.JStr? && CutString(c.s, v.s)) || (c.JObj? && v.JObj? && IsCut(loose, c.members, v.members))
  }

  /** c holds the first members of ms, and only the value of its last member may be cut. */
  predicate IsCut(loose: bool, c: Members, ms: Members)
    decreases ms
  {
    c.JNil? ||
    (ms.JCons? &&
     if c.rest.JNil? then CutKey(loose, c.key, ms.key) && CutJson(loose, c.value, ms.value)
     else c.key == ms.key && c.value == ms.value && IsCut(loose, c.rest, ms.rest))
  }

  /** A cut has no numbers but those of the whole. */
  lemma {:induction false} CutIsValid(loose: bool, c: Members, ms: Members)
    requires IsCut(loose, c, ms) && ValidMembers(ms)
    ensures ValidMembers(c)
    decreases ms
  {
    if c.JNil? {
    } else {
      if c.rest.JNil? {
        CutValueIsValid(loose, c.value, ms.value);
      } else {
        CutIsValid(loose, c.rest, ms.rest);
      }
    }
  }

  lemma {:induction false} CutValueIsValid(loose: bool, c: Json, v: Json)
    requires CutJson(loose, c, v) && ValidJson(v)
    ensures ValidJson(c)
    decreases v
  {
    if c != v && c.JObj? {
      CutIsValid(loose, c.members, v.members);
    }
  }

  /** No control byte without a short escape in s; `loose` admits one as the last byte. */
  predicate Tame(loose: bool, s: string)
  {
    forall i :: 0 <= i < (if loose then |s| - 1 else |s|) ==> !IsRawControl(s[i])
  }

  predicate TameKeys(loose: bool, fs: Fields)
  {
    fs.FCons? ==> (fs.dynamic ==> Tame(loose, fs.key)) && TameKeys(loose, fs.rest)
  }

  // ---- one string ----

  lemma StopsShort(s: string, room: nat)
    requires room > 0 && Fit(s, 0, room) < |s|
    ensures Left(s, room) <= |Esc(s[Fit(s, 0, room)])| <= 6
  {
  }

  lemma StopsAtControl(s: string, room: nat)
    requires room > 0 && Left(s, room) > 2 && Fit(s, 0, room) < |s|
    ensures IsRawControl(s[Fit(s, 0, room)])
  {
    StopsShort(s, room);
  }

  /** A tame key that is cut leaves too little room for any closer. */
  lemma CutKeyIsDropped(loose: bool, key: string, room: nat)
    requires room > 0 && Tame(loose, key) && !Complete(key, room)
    ensures Left(key, room) <= 2
  {
    StopsShort(key, room);
  }

  lemma SegLine(a: string, s: string, closer: string, rest: Prog, room: nat)
    requires Exec(Seg(a, s, closer, rest), room).Line?
    ensures |a| < room && ExecBehind(s, closer, rest, room - |a|).Line?
    ensures Exec(Seg(a, s, closer, rest), room).text ==
      a + (Piece(s, room - |a|) + ExecBehind(s, closer, rest, room - |a|).text)
  {
    var o := ExecStr(s, closer, rest, room - |a|);
    assert Exec(Seg(a, s, closer, rest), room) == After(a, o);
    assert o == After(Piece(s, room - |a|), ExecBehind(s, closer, rest, room - |a|));
  }

  lemma RawGoesOn(a: string, p: Prog, room: nat)
    requires Exec(AddRaw(a, p), room).Line?
    ensures |a| < room && Exec(p, room - |a|).Line? && Exec(AddRaw(a, p), room).text == a + Exec(p, room - |a|).text
  {
    ExecRaw(a, p, room);
  }

  // ---- one value ----

  lemma TextIsRendered(s: string, n: nat, tail: string)
    requires n <= |s|
    ensures "\"" + (EscTo(s, n) + ("\"" + tail)) == Render(JStr(s[..n])) + tail
  {
    EscapedCut(s, n);
    assert "\"" + (EscTo(s, n) + ("\"" + tail)) == "\"" + EscTo(s, n) + "\"" + tail;
  }

  /** Behind a string that was not closed the printer goes on, with the whole string printed
      or almost without room. */
  lemma TextGoesOn(s: string, closer: string, more: Prog, room: nat) returns (left: nat)
    requires room > 0 && Complete(s, room) && ExecBehind(s, closer, AddRaw("\"", more), room).Line?
    ensures left == room - 1 - |Piece(s, room)| && Exec(more, left).Line?
    ensures ExecBehind(s, closer, AddRaw("\"", more), room).text == "\"" + Exec(more, left).text
    ensures left <= 5 || Fit(s, 0, room) == |s|
  {
    left := Left(s, room) - 1;
    ExecRaw("\"", more, Left(s, room));
    if Fit(s, 0, room) < |s| {
      StopsShort(s, room);
    }
  }

  lemma LineStopsAtControl(s: string, closer: string, more: Prog, room: nat)
    requires room > 0 && |closer| >= 2 && more.text != ""
    requires ExecBehind(s, closer, AddRaw("\"", more), room).Line?
    ensures Fit(s, 0, room) < |s| ==> IsRawControl(s[Fit(s, 0, room)])
  {
    if Fit(s, 0, room) < |s| {
      StopsAtControl(s, room);
    }
  }

  lemma TextLine(s: string, closer: string, more: Prog, room: nat, tail: string)
    requires Exec(SlotProg(Text(s), closer, more), room).Line? && room > 1
    requires ExecBehind(s, closer, AddRaw("\"", more), room - 1) == Line("\"" + tail)
    ensures Exec(SlotProg(Text(s), closer, more), room).text == Render(JStr(s[..Fit(s, 0, room - 1)])) + tail
  {
    SegLine("\"", s, closer, AddRaw("\"", more), room);
    TextIsRendered(s, Fit(s, 0, room - 1), tail);
  }

  lemma PrefixIsCut(loose: bool, s: string, n: nat)
    requires n <= |s| && (n < |s| ==> IsRawControl(s[n]))
    ensures CutJson(loose, JStr(s[..n]), JStr(s)) && (n == |s| ==> s[..n] == s)
  {
  }

  lemma RenderedLength(s: string, n: nat)
    requires n <= |s|
    ensures |Render(JStr(s[..n]))| == |EscTo(s, n)| + 2
  {
    EscapedCut(s, n);
  }

  lemma CutText(loose: bool, s: string, close: string, more: Prog, room: nat)
    returns (cut: Json, left: nat, tail: string, closed: bool)
    requires close != "" && more.text != "" && Exec(SlotProg(Text(s), "\"" + close, more), room).Line?
    ensures Exec(SlotProg(Text(s), "\"" + close, more), room).text == Render(cut) + tail
    ensures CutJson(loose, cut, JStr(s))
    ensures if closed then tail == close
      else Exec(more, left) == Line(tail) && left == room - |Render(cut)| && (left <= 5 || cut == JStr(s))
  {
    var closer := "\"" + close;
    SegLine("\"", s, closer, AddRaw("\"", more), room);
    var r := room - 1;
    closed := !Complete(s, r);
    if closed {
      left, tail := 0, close;
    } else {
      left := TextGoesOn(s, closer, more, r);
      tail := Exec(more, left).text;
    }
    var n := Fit(s, 0, r);
    cut := JStr(s[..n]);
    assert Exec(SlotProg(Text(s), closer, more), room).text == Render(cut) + tail by {
      TextLine(s, closer, more, room, tail);
    }
    assert CutJson(loose, cut, JStr(s)) && (n == |s| ==> cut == JStr(s)) by {
      LineStopsAtControl(s, closer, more, r);
      PrefixIsCut(loose, s, n);
    }
    RenderedLength(s, n);
  }

  lemma CutSlot(loose: bool, v: Slot, close: string, more: Prog, room: nat)
    returns (cut: Json, left: nat, tail: string, closed: bool)
    requires close != "" && more.text != "" && Exec(SlotProg(v, "\"" + close, more), room).Line?
    ensures Exec(SlotProg(v, "\"" + close, more), room).text == Render(cut) + tail
    ensures CutJson(loose, cut, SlotJson(v))
    ensures if closed then tail == close
      else Exec(more, left) == Line(tail) && left == room - |Render(cut)| && (left <= 5 || cut == SlotJson(v))
  {
    if v.Text? {
      cut, left, tail, closed := CutText(loose, v.s, close, more, room);
    } else {
      ExecRaw(Render(v.v), more, room);
      cut, left, closed := v.v, room - |Render(v.v)|, false;
      tail := Exec(more, left).text;
    }
  }

  lemma RenderNotEmpty(v: Json)
    ensures Render(v) != []
  {
  }

  lemma SlotStarves(v: Slot, closer: string, more: Prog, room: nat)
    requires room <= 1
    ensures Exec(SlotProg(v, closer, more), room).Dropped?
  {
    if v.Fixed? {
      RenderNotEmpty(v.v);
    }
  }

  // ---- one key ----

  lemma KeyIsRendered(first: bool, key: string, n: nat, tail: string)
    requires n <= |key|
    ensures Opening(first) + (EscTo(key, n) + ("\":" + tail)) == KeyText(first, key[..n]) + tail
  {
    EscapedCut(key, n);
    assert Opening(first) + (EscTo(key, n) + ("\":" + tail)) == Opening(first) + EscTo(key, n) + "\":" + tail;
  }

  /** A tame key that the printer takes for complete is whole or lacks a final control byte. */
  lemma TameKeyIsCut(loose: bool, key: string, room: nat)
    requires room > 0 && Tame(loose, key) && Complete(key, room) && Left(key, room) > 2
    ensures CutKey(loose, key[..Fit(key, 0, room)], key)
    ensures Left(key, room) <= 6 || Fit(key, 0, room) == |key|
  {
    if Fit(key, 0, room) < |key| {
      StopsShort(key, room);
    } else {
      assert key[..|key|] == key;
    }
  }

  lemma KeyIsComplete(loose: bool, key: string, closer: string, rest: Prog, room: nat)
    requires room > 0 && |closer| >= 2 && Tame(loose, key) && ExecBehind(key, closer, rest, room).Line?
    ensures Complete(key, room)
  {
    if !Complete(key, room) {
      CutKeyIsDropped(loose, key, room);
    }
  }

  lemma KeyGoesOn(loose: bool, key: string, closer: string, more: Prog, room: nat) returns (left: nat)
    requires room > 0 && |closer| >= 2 && Tame(loose, key) && ExecBehind(key, closer, AddRaw("\":", more), room).Line?
    ensures left == room - 2 - |Piece(key, room)| && Exec(more, left).Line?
    ensures ExecBehind(key, closer, AddRaw("\":", more), room).text == "\":" + Exec(more, left).text
    ensures CutKey(loose, key[..Fit(key, 0, room)], key)
    ensures left <= 4 || Fit(key, 0, room) == |key|
  {
    assert Complete(key, room) by { KeyIsComplete(loose, key, closer, AddRaw("\":", more), room); }
    var r := Left(key, room);
    RawGoesOn("\":", more, r);
    left := r - 2;
    assert CutKey(loose, key[..Fit(key, 0, room)], key) && (r <= 6 || Fit(key, 0, room) == |key|) by {
      TameKeyIsCut(loose, key, room);
    }
  }

  lemma KeyLength(first: bool, key: string, n: nat)
    requires n <= |key|
    ensures |KeyText(first, key[..n])| == |Opening(first)| + |EscTo(key, n)| + 2 >= 3
    ensures n == |key| ==> key[..n] == key
  {
    EscapedCut(key, n);
  }

  lemma CutDynamicKey(loose: bool, first: bool, key: string, closer: string, more: Prog, room: nat)
    returns (cut: string, left: nat)
    requires |closer| >= 2 && Tame(loose, key) && Exec(KeyProg(true, first, key, closer, more), room).Line?
    ensures CutKey(loose, cut, key) && Exec(more, left).Line?
    ensures Exec(KeyProg(true, first, key, closer, more), room).text == KeyText(first, cut) + Exec(more, left).text
    ensures left == room - |KeyText(first, cut)| && (left <= 4 || cut == key)
  {
    SegLine(Opening(first), key, closer, AddRaw("\":", more), room);
    var r := room - |Opening(first)|;
    left := KeyGoesOn(loose, key, closer, more, r);
    cut := key[..Fit(key, 0, r)];
    KeyIsRendered(first, key, Fit(key, 0, r), Exec(more, left).text);
    KeyLength(first, key, Fit(key, 0, r));
  }

  lemma CutAnyKey(loose: bool, dynamic: bool, first: bool, key: string, closer: string, more: Prog, room: nat)
    returns (cut: string, left: nat)
    requires |closer| >= 2 && (dynamic ==>
      Tame(loose, key)) && Exec(KeyProg(dynamic, first, key, closer, more), room).Line?
    ensures CutKey(loose, cut, key) && Exec(more, left).Line?
    ensures Exec(KeyProg(dynamic, first, key, closer, more), room).text == KeyText(first, cut) + Exec(more, left).text
    ensures left == room - |KeyText(first, cut)| && (left <= 4 || cut == key)
  {
    if dynamic {
      cut, left := CutDynamicKey(loose, first, key, closer, more, room);
    } else {
      ExecRaw(KeyText(first, key), more, room);
      cut, left := key, room - |KeyText(first, key)|;
    }
  }

  // ---- the members of an object ----

  /** Five bytes do not hold another member. */
  lemma Starves(loose: bool, fs: Fields, closer: string, k: Prog, room: nat)
    requires fs.FCons? && TameKeys(loose, fs) && |closer| >= 2 && room <= 5
    ensures Exec(FieldsProg(false, fs, closer, k), room).Dropped?
  {
    var more := SlotProg(fs.value, closer, FieldsProg(false, fs.rest, closer, k));
    if Exec(KeyProg(fs.dynamic, false, fs.key, closer, more), room).Line? {
      var cut, left := CutAnyKey(loose, fs.dynamic, false, fs.key, closer, more, room);
      SlotStarves(fs.value, closer, FieldsProg(false, fs.rest, closer, k), left);
    }
  }

  lemma FieldsBegin(first: bool, fs: Fields, closer: string, k: Prog)
    requires k.text != ""
    ensures FieldsProg(first, fs, closer, k).text != ""
  {
  }

  /** What is printed of one member. */
  lemma CutMember(loose: bool, first: bool, fs: Fields, close: string, k: Prog, room: nat)
    returns (key: string, value: Json, left: nat, tail: string, closed: bool)
    requires fs.FCons? && TameKeys(loose, fs) && close != "" && k.text != ""
    requires Exec(FieldsProg(first, fs, "\"" + close, k), room).Line?
    ensures Exec(FieldsProg(first, fs, "\"" + close, k), room).text == KeyText(first, key) + (Render(value) + tail)
    ensures CutKey(loose, key, fs.key) && CutJson(loose, value, SlotJson(fs.value))
    ensures if closed then tail == close
      else Exec(FieldsProg(false, fs.rest, "\"" + close, k), left) == Line(tail) &&
           left == room - |KeyText(first, key)| - |Render(value)| &&
           (left <= 5 || (key == fs.key && value == SlotJson(fs.value)))
  {
    var rest := FieldsProg(false, fs.rest, "\"" + close, k);
    FieldsBegin(false, fs.rest, "\"" + close, k);
    var r: nat;
    key, r := CutAnyKey(loose, fs.dynamic, first, fs.key, "\"" + close, SlotProg(fs.value, "\"" + close, rest), room);
    value, left, tail, closed := CutSlot(loose, fs.value, close, rest, r);
  }

  lemma JoinMember(first: bool, key: string, value: Json, rest: Members, tail: string)
    ensures KeyText(first, key) + (Render(value) + (RenderMembers(false, rest) + tail)) ==
            RenderMembers(first, JCons(key, value, rest)) + tail
  {
    RegroupBefore(KeyText(first, key), Render(value), RenderMembers(false, rest), tail);
  }

  lemma JoinLast(first: bool, key: string, value: Json, tail: string)
    ensures KeyText(first, key) + (Render(value) + tail) == RenderMembers(first, JCons(key, value, JNil)) + tail
    ensures |RenderMembers(first, JCons(key, value, JNil))| == |KeyText(first, key)| + |Render(value)|
  {
    JoinMember(first, key, value, JNil, tail);
    assert RenderMembers(false, JNil) + tail == tail;
  }

  lemma LastIsCut(loose: bool, key: string, value: Json, fs: Fields)
    requires fs.FCons? && CutKey(loose, key, fs.key) && CutJson(loose, value, SlotJson(fs.value))
    ensures IsCut(loose, JCons(key, value, JNil), MembersOf(fs))
  {
  }

  lemma MoreIsCut(loose: bool, rest: Members, fs: Fields)
    requires fs.FCons? && IsCut(loose, rest, MembersOf(fs.rest))
    ensures IsCut(loose, JCons(fs.key, SlotJson(fs.value), rest), MembersOf(fs))
  {
  }

  /** A line holds the first members, the last of them possibly cut, and then either the
      rest of the closer or what the program prints behind the members. */
  lemma {:induction false} CutFields(loose: bool, first: bool, fs: Fields, close: string, k: Prog, room: nat)
    returns (cut: Members, left: nat, tail: string, closed: bool)
    requires TameKeys(loose, fs) && close != "" && k.text != ""
    requires Exec(FieldsProg(first, fs, "\"" + close, k), room).Line?
    ensures Exec(FieldsProg(first, fs, "\"" + close, k), room).text == RenderMembers(first, cut) + tail
    ensures IsCut(loose, cut, MembersOf(fs))
    ensures if closed then tail == close
      else Exec(k, left) == Line(tail) && left == room - |RenderMembers(first, cut)| &&
           (left <= 5 || cut == MembersOf(fs))
    decreases fs
  {
    if fs.FNil? {
      cut, left, tail, closed := JNil, room, Exec(k, room).text, false;
      assert "" + tail == tail;
      return;
    }
    var key, value;
    key, value, left, tail, closed := CutMember(loose, first, fs, close, k, room);
    if !closed && left > 5 {
      cut, left, tail, closed := CutFields(loose, false, fs.rest, close, k, left);
      JoinMember(first, key, value, cut, tail);
      MoreIsCut(loose, cut, fs);
      cut := JCons(key, value, cut);
    } else {
      JoinLast(first, key, value, tail);
      LastIsCut(loose, key, value, fs);
      cut := JCons(key, value, JNil);
      if !closed && fs.rest.FCons? {
        Starves(loose, fs.rest, "\"" + close, k, left);
      }
    }
  }

  /** Members that `close` follows: the line always ends in `close`. */
  lemma CutObject(loose: bool, fs: Fields, close: string, room: nat) returns (c: Members)
    requires TameKeys(loose, fs) && close != "" && Exec(FieldsProg(true, fs, "\"" + close, Last(close)), room).Line?
    ensures IsCut(loose, c, MembersOf(fs))
    ensures Exec(FieldsProg(true, fs, "\"" + close, Last(close)), room).text == RenderMembers(true, c) + close
  {
    var left, tail, closed;
    c, left, tail, closed := CutFields(loose, true, fs, close, Last(close), room);
  }
}
