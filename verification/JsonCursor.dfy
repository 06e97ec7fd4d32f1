/** The output cursor of the JSON renderers: `out` and `remaining` move through a caller's
    buffer.  Every operation is one step of a program of `JsonPrinter`. */
module JsonCursor {
  import opened CStrings
  import opened JsonText
  import opened JsonPrinter


  /** The result of a renderer: the length of the line, or -1. */
  ghost predicate Returned(goal: Outcome, buf: array<char>, n: int)
    reads buf
  {
    if goal.Dropped? then n == -1
    else n == |goal.text| && n < buf.Length && buf[..n] == goal.text && buf[n] == NUL
  }

  class Cursor {
    const buf: array<char>
    var out: nat
    var remaining: nat

    ghost predicate Valid()
      reads this
    {
      out + remaining == buf.Length
    }

    ghost function Written(): string
      reads this, buf
      requires Valid()
    {
      buf[..out]
    }

    /** The line that program p, from here on, ends in. */
    ghost predicate Toward(goal: Outcome, p: Prog)
      reads this, buf
    {
      Valid() && goal == After(Written(), Exec(p, remaining))
    }

    constructor (buf: array<char>, ghost p: Prog)
      ensures this.buf == buf && Toward(Exec(p, buf.Length), p)
    {
      this.buf := buf;
      out, remaining := 0, buf.Length;
      new;
      assert Written() == "";
      if Exec(p, buf.Length).Line? {
        assert "" + Exec(p, buf.Length).text == Exec(p, buf.Length).text;
      }
    }

    /** `memcpy` of a string to the output position. */
    method Copy(str: string)
      requires Valid() && |str| < remaining
      modifies buf, this
      ensures Valid() && out == old(out) + |str|
      ensures Written() == old(Written()) + str
    {
      forall k | 0 <= k < |str| {
        buf[out + k] := str[k];
      }
      out, remaining := out + |str|, remaining - |str|;
    }

    /** `append_buf_str`: all of the string, or nothing when it does not fit with a NUL. */
    method AppendStr(str: string) returns (ok: bool)
      requires Valid()
      modifies buf, this
      ensures Valid() && ok == (|str| < old(remaining))
      ensures out == if ok then old(out) + |str| else old(out)
      ensures Written() == if ok then old(Written()) + str else old(Written())
      ensures ok ==> buf[out] == NUL
    {
      if |str| >= remaining {
        return false;
      }
      Copy(str);
      buf[out] := NUL;
      return true;
    }

    /** `append_json_escaped_string`: the escape of the longest prefix that fits; the result is
        false when bytes were left over, except that a last byte without room is not noticed. */
    method AppendEscaped(str: string) returns (ok: bool)
      requires Valid() && remaining > 0
      modifies buf, this
      ensures Valid() && remaining > 0 && buf[out] == NUL
      ensures Written() == old(Written()) + Piece(str, old(remaining))
      ensures ok == Complete(str, old(remaining))
    {
      ghost var room, was := remaining, Written();
      ghost var stop := Fit(str, 0, room);
      ok := EscapeUpTo(str, stop, room, was);
      CompleteAt(str, stop, room);
      Terminate();
    }

    method Terminate()
      requires Valid() && remaining > 0
      modifies buf
      ensures Valid() && buf[out] == NUL && Written() == old(Written())
    {
      buf[out] := NUL;
    }

    /** The loop over the bytes, which ends at `stop`. */
    method EscapeUpTo(str: string, ghost stop: nat, ghost room: nat, ghost was: string) returns (ok: bool)
      requires Valid() && remaining == room && Written() == was && StopsIn(str, stop, room)
      modifies buf, this
      ensures Valid() && 0 < remaining == room - |EscTo(str, stop)| && Written() == was + EscTo(str, stop)
      ensures ok <==> stop == |str| || (stop + 1 == |str| && remaining > 1)
    {
      var i := 0;
      ghost var done := "";
      assert was + done == was;
      while i < |str| && remaining > 1
        invariant 0 <= i <= stop && Valid() && 0 < remaining == room - |done| && done == EscTo(str, i)
        invariant Written() == was + done
      {
        StopsLater(str, i, stop, room);
        if remaining <= |Esc(str[i])| {
          return i + 1 == |str|;
        }
        AppendEscape(str[i], done, was);
        done := done + Esc(str[i]);
        i := i + 1;
      }
      if i < |str| {
        StopsLater(str, i, stop, room);
      }
      return i == |str|;
    }

    method AppendEscape(c: char, ghost done: string, ghost was: string)
      requires Valid() && |Esc(c)| < remaining && Written() == was + done
      modifies buf, this
      ensures Valid() && Written() == was + (done + Esc(c)) && remaining == old(remaining) - |Esc(c)|
    {
      Copy(Esc(c));
      assert was + done + Esc(c) == was + (done + Esc(c));
    }

    /** `json_close_object`: the closer and its NUL, or -1. */
    method CloseObject(suffix: string) returns (n: int)
      requires Valid()
      modifies buf, this
      ensures Valid() && (n == -1 <==> old(remaining) < |suffix| + 1)
      ensures n != -1 ==> n == out && Written() == old(Written()) + suffix && out < buf.Length && buf[out] == NUL
    {
      if remaining < |suffix| + 1 {
        return -1;
      }
      Copy(suffix);
      buf[out] := NUL;
      return out;
    }

    // ---- steps of a program ----

    /** Raw text, or the end without a line. */
    method Emit(text: string, ghost goal: Outcome, ghost p: Prog) returns (ok: bool)
      requires Toward(goal, AddRaw(text, p))
      modifies buf, this
      ensures ok ==> Toward(goal, p) && remaining > 0 && buf[out] == NUL
      ensures !ok ==> goal.Dropped?
    {
      ExecRaw(text, p, remaining);
      ghost var was := Written();
      ok := AppendStr(text);
      if ok {
        AfterAfter(was, text, Exec(p, remaining));
      }
    }

    /** A string; when it is cut the line is closed and n is the renderer's result. */
    method EmitString(s: string, closer: string, ghost goal: Outcome, ghost p: Prog) returns (ok: bool, n: int)
      requires remaining > 0 && Toward(goal, Seg("", s, closer, p))
      modifies buf, this
      ensures ok ==> Toward(goal, p) && remaining > 0
      ensures !ok ==> Returned(goal, buf, n)
    {
      ghost var was, room := Written(), remaining;
      assert goal == After(was, After(Piece(s, room), ExecBehind(s, closer, p, room))) by { StringStep(s, closer, p,
        room); }
      AfterAfter(was, Piece(s, room), ExecBehind(s, closer, p, room));
      ok := AppendEscaped(s);
      n := 0;
      if !ok {
        n := CloseObject(closer);
      }
    }
  }

  lemma StringStep(s: string, closer: string, p: Prog, room: nat)
    requires room > 0
    ensures Exec(Seg("", s, closer, p), room) == After(Piece(s, room), ExecBehind(s, closer, p, room))
  {
    var o := ExecStr(s, closer, p, room);
    if o.Line? {
      assert "" + o.text == o.text;
    }
  }
}
