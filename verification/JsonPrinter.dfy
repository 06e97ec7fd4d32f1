/** The bounded-buffer JSON printer: raw chunks that fail when they do not fit, strings that
    are cut when they do not fit, and a closer that completes the object behind a cut. */
module JsonPrinter {
  import opened CStrings
  import opened JsonText

  /** What is printed: text, then a string whose cut is followed by `closer`, and so on. */
  datatype Prog =
    | Last(text: string)
    | Seg(text: string, s: string, closer: string, rest: Prog)

  datatype Outcome = Dropped | Line(text: string)

  function After(a: string, o: Outcome): Outcome
  {
    if o.Dropped? then Dropped else Line(a + o.text)
  }

  lemma AfterAfter(a: string, b: string, o: Outcome)
    ensures After(a, After(b, o)) == After(a + b, o)
  {
    if o.Line? {
      assert a + (b + o.text) == a + b + o.text;
    }
  }

  // ---- strings ----

  /** The longest prefix of s, of at least i bytes, whose escape leaves room for a NUL. */
  function Fit(s: string, i: nat, room: nat): (n: nat)
    requires i <= |s| && |EscTo(s, i)| < room
    ensures i <= n <= |s| && |EscTo(s, n)| < room
    ensures n < |s| ==> |EscTo(s, n + 1)| >= room
    decreases |s| - i
  {
    if i < |s| && |EscTo(s, i + 1)| < room then Fit(s, i + 1, room) else i
  }

  /** The escape that is written, and the room behind it. */
  function Piece(s: string, room: nat): string
    requires room > 0
  {
    EscTo(s, Fit(s, 0, room))
  }

  function Left(s: string, room: nat): (left: nat)
    requires room > 0
    ensures left > 0
  {
    room - |Piece(s, room)|
  }

  /** What the printer takes for completeness: the last byte may be missing. */
  predicate Complete(s: string, room: nat)
    requires room > 0
  {
    var n := Fit(s, 0, room);
    n == |s| || (n == |s| - 1 && Left(s, room) > 1)
  }

  // ---- programs ----

  function Exec(p: Prog, room: nat): (o: Outcome)
    decreases p, 0
  {
    if |p.text| >= room then Dropped
    else if p.Last? then Line(p.text)
    else After(p.text, ExecStr(p.s, p.closer, p.rest, room - |p.text|))
  }

  function ExecStr(s: string, closer: string, rest: Prog, room: nat): (o: Outcome)
    requires room > 0
    decreases rest, 2
  {
    After(Piece(s, room), ExecBehind(s, closer, rest, room))
  }

  function ExecBehind(s: string, closer: string, rest: Prog, room: nat): (o: Outcome)
    requires room > 0
    decreases rest, 1
  {
    if Complete(s, room) then Exec(rest, Left(s, room))
    else if |closer| + 1 <= Left(s, room) then Line(closer)
    else Dropped
  }

  function AddRaw(a: string, p: Prog): Prog
  {
    p.(text := a + p.text)
  }

  /** Raw text may be written in any number of chunks. */
  lemma ExecRaw(a: string, p: Prog, room: nat)
    ensures Exec(AddRaw(a, p), room) == if |a| >= room then Dropped else After(a, Exec(p, room - |a|))
  {
    if |a + p.text| < room && p.Seg? {
      var o := ExecStr(p.s, p.closer, p.rest, room - |a| - |p.text|);
      if o.Line? {
        assert a + p.text + o.text == a + (p.text + o.text);
      }
    }
  }

  /** A line always leaves room for the terminating NUL. */
  lemma {:induction false} LineFits(p: Prog, room: nat)
    ensures Exec(p, room).Line? ==> |Exec(p, room).text| < room
    decreases p
  {
    if p.Seg? && |p.text| < room {
      var r := room - |p.text|;
      LineFits(p.rest, Left(p.s, r));
      assert Exec(p, room) == After(p.text, After(Piece(p.s, r), ExecBehind(p.s, p.closer, p.rest, r)));
    }
  }

  function Full(p: Prog): string
  {
    if p.Last? then p.text else p.text + (Escaped(p.s) + Full(p.rest))
  }

  lemma WholeFits(s: string, room: nat)
    requires |Escaped(s)| < room
    ensures Fit(s, 0, room) == |s| && Piece(s, room) == Escaped(s)
  {
    var n := Fit(s, 0, room);
    if n < |s| {
      EscToGrows(s, n + 1, |s|);
    }
  }

  lemma {:induction false} EscToGrows(s: string, n: nat, m: nat)
    requires n <= m <= |s|
    ensures |EscTo(s, n)| <= |EscTo(s, m)|
    decreases m
  {
    if n == m {
    } else {
      EscToGrows(s, n, m - 1);
    }
  }

  lemma {:induction false} FitAt(s: string, i: nat, n: nat, room: nat)
    requires i <= n < |s| && |EscTo(s, n)| < room <= |EscTo(s, n + 1)|
    ensures |EscTo(s, i)| < room && Fit(s, i, room) == n
    decreases n - i
  {
    EscToGrows(s, i, n);
    if i == n {
    } else {
      FitAt(s, i + 1, n, room);
    }
  }

  /** Exactly the first n bytes of s fit. */
  predicate StopsIn(s: string, n: nat, room: nat)
  {
    n <= |s| && |EscTo(s, n)| < room && (n < |s| ==> |EscTo(s, n + 1)| >= room)
  }

  /** The byte at i fits exactly when the prefix that fits is longer. */
  lemma StopsLater(s: string, i: nat, n: nat, room: nat)
    requires StopsIn(s, n, room) && i <= n && i < |s|
    ensures |EscTo(s, i)| + |Esc(s[i])| < room <==> i < n
  {
    EscLonger(s, i);
    if i < n {
      EscToGrows(s, i + 1, n);
    }
  }

  lemma EscLonger(s: string, i: nat)
    requires i < |s|
    ensures |EscTo(s, i + 1)| == |EscTo(s, i)| + |Esc(s[i])|
  {
  }

  lemma CompleteAt(s: string, i: nat, room: nat)
    requires room > 0 && i == Fit(s, 0, room)
    ensures Piece(s, room) == EscTo(s, i)
    ensures Complete(s, room) <==> i == |s| || (i + 1 == |s| && room - |EscTo(s, i)| > 1)
  {
  }

  /** A string is taken for complete although its last byte is missing exactly when there is
      room for all others and at least two bytes more, and not for the whole. */
  lemma SilentDropIff(s: string, room: nat)
    requires room > 0
    ensures Complete(s, room) && Fit(s, 0, room) < |s| <==>
            s != "" && |EscTo(s, |s| - 1)| + 1 < room <= |Escaped(s)|
  {
    var n := Fit(s, 0, room);
    CompleteAt(s, n, room);
    if s != "" {
      SilentAt(s, n, room);
    }
  }

  lemma SilentAt(s: string, n: nat, room: nat)
    requires s != "" && StopsIn(s, n, room)
    ensures n == |s| - 1 && room - |EscTo(s, n)| > 1 <==> |EscTo(s, |s| - 1)| + 1 < room <= |EscTo(s, |s|)|
  {
    StopsLastIff(s, n, room);
  }

  lemma StopsLastIff(s: string, n: nat, room: nat)
    requires s != "" && StopsIn(s, n, room)
    ensures n == |s| - 1 <==> |EscTo(s, |s| - 1)| < room <= |EscTo(s, |s|)|
  {
    if n < |s| - 1 {
      EscToGrows(s, n + 1, |s| - 1);
    }
  }

  /** A quote and two bytes of room: success is reported and nothing is written. */
  lemma QuoteIsDropped()
    ensures Complete("\"", 2) && Piece("\"", 2) == ""
  {
    assert EscTo("\"", 1) == Esc('"');
    SilentDropIff("\"", 2);
  }

  /** With enough room nothing is cut. */
  lemma {:induction false} ExecFull(p: Prog, room: nat)
    requires |Full(p)| < room
    ensures Exec(p, room) == Line(Full(p))
    decreases p
  {
    if p.Last? {
    } else {
      var r := room - |p.text|;
      ExecFull(p.rest, r - |Escaped(p.s)|);
      assert ExecStr(p.s, p.closer, p.rest, r) == Line(Escaped(p.s) + Full(p.rest)) by {
        FullString(p.s, p.closer, p.rest, r);
      }
    }
  }

  lemma FullString(s: string, closer: string, rest: Prog, room: nat)
    requires |Escaped(s)| < room && Exec(rest, room - |Escaped(s)|) == Line(Full(rest))
    ensures ExecStr(s, closer, rest, room) == Line(Escaped(s) + Full(rest))
  {
    WholeFits(s, room);
    assert ExecBehind(s, closer, rest, room) == Exec(rest, room - |Escaped(s)|);
  }

  // ---- objects ----

  datatype Slot = Text(s: string) | Fixed(v: Json)

  /** The members of one object; only `dynamic` keys go through the string printer. */
  datatype Fields = FNil | FCons(dynamic: bool, key: string, value: Slot, rest: Fields)

  function SlotJson(v: Slot): Json
  {
    if v.Text? then JStr(v.s) else v.v
  }

  function MembersOf(fs: Fields): Members
  {
    if fs.FNil? then JNil else JCons(fs.key, SlotJson(fs.value), MembersOf(fs.rest))
  }

  function SlotProg(v: Slot, closer: string, more: Prog): Prog
  {
    if v.Text? then Seg("\"", v.s, closer, AddRaw("\"", more)) else AddRaw(Render(v.v), more)
  }

  function Opening(first: bool): string { if first then "\"" else ",\"" }

  function KeyProg(dynamic: bool, first: bool, key: string, closer: string, more: Prog): Prog
  {
    if dynamic then Seg(Opening(first), key, closer, AddRaw("\":", more)) else AddRaw(KeyText(first, key), more)
  }

  function FieldsProg(first: bool, fs: Fields, closer: string, k: Prog): Prog
    decreases fs
  {
    if fs.FNil? then k
    else KeyProg(fs.dynamic, first, fs.key, closer, SlotProg(fs.value, closer, FieldsProg(false, fs.rest, closer, k)))
  }

  lemma FullRaw(a: string, p: Prog)
    ensures Full(AddRaw(a, p)) == a + Full(p)
  {
    if p.Seg? {
      assert a + p.text + (Escaped(p.s) + Full(p.rest)) == a + (p.text + (Escaped(p.s) + Full(p.rest)));
    }
  }

  lemma FullSlot(v: Slot, closer: string, more: Prog)
    ensures Full(SlotProg(v, closer, more)) == Render(SlotJson(v)) + Full(more)
  {
    if v.Text? {
      FullRaw("\"", more);
      assert "\"" + (Escaped(v.s) + ("\"" + Full(more))) == "\"" + Escaped(v.s) + "\"" + Full(more);
    } else {
      FullRaw(Render(v.v), more);
    }
  }

  lemma FullKey(dynamic: bool, first: bool, key: string, closer: string, more: Prog)
    ensures Full(KeyProg(dynamic, first, key, closer, more)) == KeyText(first, key) + Full(more)
  {
    if dynamic {
      FullRaw("\":", more);
      assert Opening(first) + (Escaped(key) + ("\":" + Full(more))) ==
        Opening(first) + Escaped(key) + "\":" + Full(more);
    } else {
      FullRaw(KeyText(first, key), more);
    }
  }

  /** Uncut, the program prints the members and then what follows them. */
  lemma {:induction false} FullFields(first: bool, fs: Fields, closer: string, k: Prog)
    ensures Full(FieldsProg(first, fs, closer, k)) == RenderMembers(first, MembersOf(fs)) + Full(k)
    decreases fs
  {
    if fs.FCons? {
      var more := FieldsProg(false, fs.rest, closer, k);
      FullKey(fs.dynamic, first, fs.key, closer, SlotProg(fs.value, closer, more));
      FullSlot(fs.value, closer, more);
      FullFields(false, fs.rest, closer, k);
      RegroupBefore(KeyText(first, fs.key), Render(SlotJson(fs.value)), RenderMembers(false, MembersOf(fs.rest)),
        Full(k));
    } else {
      assert "" + Full(k) == Full(k);
    }
  }
}
