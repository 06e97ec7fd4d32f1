/** Record-time redaction: the in-place applier for message buffers, the ping-pong applier for
    messages with attributes, and the heap applier for attribute values.  A string in memory is
    a NUL-terminated array; `malloc` may fail where `mallocOk` says so. */
module Redaction {
  import opened CStrings
  import opened ReplaceAll

  const TMP_LEN: nat := 512

  ghost predicate HasText(buf: array<char>, s: string)
    reads buf
  {
    NUL !in s && |s| < buf.Length && buf[|s|] == NUL && forall k :: 0 <= k < |s| ==> buf[k] == s[k]
  }

  method StrLen(buf: array<char>, ghost s: string) returns (n: nat)
    requires HasText(buf, s)
    ensures n == |s|
  {
    n := 0;
    while buf[n] != NUL
      invariant n <= |s|
      decreases |s| - n
    {
      assert n < |s|;
      n := n + 1;
    }
  }

  /** `strstr(buf + from, pat)`, as an index into buf, or -1. */
  method StrStr(buf: array<char>, from: nat, pat: string, ghost s: string) returns (hit: int)
    requires HasText(buf, s) && from <= |s| && pat != []
    ensures hit == Find(s, pat, from)
  {
    var n := StrLen(buf, s);
    hit := from;
    while hit + |pat| <= n
      invariant from <= hit && Find(s, pat, from) == Find(s, pat, hit)
    {
      var k := 0;
      while k < |pat| && buf[hit + k] == pat[k]
        invariant 0 <= k <= |pat| && forall i :: 0 <= i < k ==> s[hit + i] == pat[i]
      {
        k := k + 1;
      }
      if k == |pat| {
        assert OccursAt(s, pat, hit);
        return;
      }
      assert s[hit + k] != pat[k];
      hit := hit + 1;
    }
    hit := -1;
  }

  // ---- in place ----

  /** The buffer holds `out`, which is final, followed by what is left of the source. */
  function InPlace(s: string, c: nat, out: string, r: Rule, size: nat): string
    requires !r.Skipped() && c <= |s|
    decreases |s| - c
  {
    var hit := Find(s, r.pat, c);
    if hit < 0 then out + s[c..]
    else
      var grown := out + s[c..hit] + r.msk;
      if Fits(s, hit, grown, r, size) then InPlace(s, hit + |r.pat|, grown, r, size) else Truncated(grown, size)
  }

  predicate Fits(s: string, hit: nat, grown: string, r: Rule, size: nat)
  {
    |grown| + (|s| - hit - |r.pat|) < size
  }

  function Truncated(t: string, size: nat): string
  {
    if |t| < size then t else if size == 0 then [] else t[..size - 1]
  }

  lemma {:induction false} ReplaceGrows(s: string, i: nat, r: Rule)
    requires !r.Skipped() && i <= |s| && |r.pat| <= |r.msk|
    ensures |Replace(s, i, r)| >= |s| - i
    decreases |s| - i
  {
    if i == |s| {
    } else if OccursAt(s, r.pat, i) {
      ReplaceGrows(s, i + |r.pat|, r);
    } else {
      ReplaceGrows(s, i + 1, r);
    }
  }

  /** One hit extends the finished output. */
  lemma HitExtends(s: string, c: nat, r: Rule, out: string)
    requires !r.Skipped() && c <= |s| && Find(s, r.pat, c) >= 0
    ensures var hit := Find(s, r.pat, c);
      out + Replace(s, c, r) == (out + s[c..hit] + r.msk) + Replace(s, hit + |r.pat|, r)
  {
    ReplaceToHit(s, c, r);
    var hit := Find(s, r.pat, c);
    RegroupFour(out, s[c..hit], r.msk, Replace(s, hit + |r.pat|, r));
  }

  /** t is a proper cut: a prefix of a replacement that does not fit. */
  ghost predicate IsCut(full: string, size: nat, t: string)
  {
    |full| >= size && |t| <= |full| && t == full[..|t|]
  }

  lemma TruncatedIsCut(full: string, grown: string, rest: string, size: nat)
    requires full == grown + rest && |full| >= size
    ensures IsCut(full, size, Truncated(grown, size))
  {
  }

  /** The buffer ends with the full replacement, or with a prefix of it when it does not fit. */
  lemma {:induction false} InPlaceIsPrefix(s: string, c: nat, out: string, r: Rule, size: nat, full: string)
    requires !r.Skipped() && c <= |s| && |out| + (|s| - c) < size && full == out + Replace(s, c, r)
    ensures InPlace(s, c, out, r, size) == full || IsCut(full, size, InPlace(s, c, out, r, size))
    decreases |s| - c
  {
    var hit := Find(s, r.pat, c);
    if hit < 0 {
      ReplaceNoHit(s, c, r);
    } else {
      var grown := out + s[c..hit] + r.msk;
      assert full == grown + Replace(s, hit + |r.pat|, r) by { HitExtends(s, c, r, out); }
      assert |grown| - |r.msk| + (|s| - hit) < size;
      if Fits(s, hit, grown, r, size) {
        InPlaceIsPrefix(s, hit + |r.pat|, grown, r, size, full);
      } else {
        CutWhenFull(s, hit, grown, r, size, full);
      }
    }
  }

  lemma CutWhenFull(s: string, hit: nat, grown: string, r: Rule, size: nat, full: string)
    requires !r.Skipped() && hit + |r.pat| <= |s| && !Fits(s, hit, grown, r, size)
    requires full == grown + Replace(s, hit + |r.pat|, r) && |grown| - |r.msk| + (|s| - hit) < size
    ensures IsCut(full, size, Truncated(grown, size))
  {
    var rest := Replace(s, hit + |r.pat|, r);
    assert |rest| >= |s| - hit - |r.pat| by { ReplaceGrows(s, hit + |r.pat|, r); }
    TruncatedIsCut(full, grown, rest, size);
  }

  lemma {:induction false} InPlaceExtends(s: string, c: nat, out: string, r: Rule, size: nat)
    requires !r.Skipped() && c <= |s| && |out| < size
    ensures out <= InPlace(s, c, out, r, size)
    decreases |s| - c
  {
    var hit := Find(s, r.pat, c);
    if hit >= 0 {
      var grown := out + s[c..hit] + r.msk;
      assert out <= grown;
      if Fits(s, hit, grown, r, size) {
        InPlaceExtends(s, hit + |r.pat|, grown, r, size);
      }
    }
  }

  /** Whatever is cut, the text before the leftmost occurrence and as much of its mask as the buffer
      holds are there. */
  lemma InPlaceKeepsHead(s: string, r: Rule, size: nat, i: nat)
    requires r.pat != "" && r.msk != "" && |s| < size && Leftmost(s, r.pat, i)
    ensures !r.Skipped() && Truncated(s[..i] + r.msk, size) <= InPlace(s, 0, "", r, size)
  {
    LeftmostIsFound(s, r.pat, 0, i);
    var grown := "" + s[0..i] + r.msk;
    assert grown == s[..i] + r.msk;
    if Fits(s, i, grown, r, size) {
      InPlaceExtends(s, i + |r.pat|, grown, r, size);
    }
  }

  /** What one rule makes of u in a buffer of `size` bytes: the replacement, all of it when it
      fits, otherwise a prefix. */
  ghost predicate RuleStep(r: Rule, size: nat, u: string, t: string)
  {
    var full := Replaced(u, r);
    |t| <= |full| && t == full[..|t|] && (|full| < size || r.Skipped() ==> t == full)
  }

  lemma InPlaceSteps(s: string, r: Rule, size: nat)
    requires !r.Skipped() && |s| < size
    ensures RuleStep(r, size, s, InPlace(s, 0, "", r, size))
  {
    assert "" + Replace(s, 0, r) == Replace(s, 0, r);
    InPlaceIsPrefix(s, 0, "", r, size, Replace(s, 0, r));
  }

  /** The text behind the finished output is searched like the source it was copied from. */
  lemma {:induction false} FindShift(t: string, from: nat, s: string, c: nat, q: string)
    requires q != [] && from <= |t| && c <= |s| && |t| - from == |s| - c
    requires forall k :: from <= k < |t| ==> t[k] == s[k - from + c]
    ensures Find(t, q, from) == if Find(s, q, c) < 0 then -1 else Find(s, q, c) - c + from
    decreases |s| - c
  {
    if c + |q| <= |s| {
      assert OccursAt(t, q, from) <==> OccursAt(s, q, c);
      if !OccursAt(s, q, c) {
        FindShift(t, from + 1, s, c + 1, q);
      }
    }
  }

  /** memmove of the tail and copy of the mask over `mid`. */
  method Splice(buf: array<char>, hit: nat, midLen: nat, msk: string, ghost head: string, ghost mid: string,
    ghost tail: string)
    requires HasText(buf, head + mid + tail) && hit == |head| && midLen == |mid| && NUL !in msk
    requires |head| + |msk| + |tail| < buf.Length
    modifies buf
    ensures HasText(buf, head + msk + tail)
  {
    ghost var t, u := head + mid + tail, head + msk + tail;
    var n := StrLen(buf, t);
    var m := |msk|;
    forall k | hit + m <= k <= n - midLen + m {
      buf[k] := buf[k - m + midLen];
    }
    forall k | hit <= k < hit + m {
      buf[k] := msk[k - hit];
    }
    forall k | 0 <= k < |u| ensures buf[k] == u[k] {
      if k < hit {
        assert t[k] == u[k];
      } else if k >= hit + m {
        assert u[k] == t[k - m + midLen];
      }
    }
  }

  /** The truncating branch: as much of the mask as fits, then the terminator. */
  method CutMask(buf: array<char>, hit: nat, msk: string, ghost head: string, ghost t: string)
    requires HasText(buf, t) && hit == |head| <= |t| && NUL !in msk && forall k :: 0 <= k < hit ==> t[k] == head[k]
    modifies buf
    ensures HasText(buf, Truncated(head + msk, buf.Length))
  {
    var avail := buf.Length - hit - 1;
    var n := if |msk| < avail then |msk| else avail;
    forall k | hit <= k < hit + n {
      buf[k] := msk[k - hit];
    }
    buf[hit + n] := NUL;
    ghost var u := Truncated(head + msk, buf.Length);
    assert |u| == hit + n;
    forall k | 0 <= k < |u| ensures buf[k] == u[k] && u[k] != NUL {
      assert u[k] == (head + msk)[k];
      if k < hit {
        assert buf[k] == t[k];
      }
    }
  }

  lemma HitParts(s: string, c: nat, hit: nat, n: nat, out: string)
    requires c <= hit <= hit + n <= |s|
    ensures out + s[c..] == (out + s[c..hit]) + s[hit..hit + n] + s[hit + n..]
  {
    assert s[c..] == s[c..hit] + s[hit..hit + n] + s[hit + n..];
  }

  /** The buffer holds the finished output and what is left of the source. */
  ghost predicate Rewriting(buf: array<char>, s: string, c: nat, out: string)
    reads buf
  {
    c <= |s| && HasText(buf, out + s[c..])
  }

  /** One hit of `redact_apply_locked`: replaced, or the text cut when it does not fit. */
  method ReplaceHit(buf: array<char>, hit: nat, r: Rule, ghost s: string, ghost c: nat, ghost out: string)
    returns (fits: bool, ghost c': nat, ghost out': string)
    requires !r.Skipped() && NUL !in r.msk && Rewriting(buf, s, c, out)
    requires Find(s, r.pat, c) >= 0 && hit == |out| + (Find(s, r.pat, c) - c)
    modifies buf
    ensures fits ==> Rewriting(buf, s, c', out') && c < c' && |out'| == hit + |r.msk|
    ensures fits ==> InPlace(s, c, out, r, buf.Length) == InPlace(s, c', out', r, buf.Length)
    ensures !fits ==> HasText(buf, InPlace(s, c, out, r, buf.Length))
  {
    ghost var h := Find(s, r.pat, c);
    ghost var head, mid, tail := out + s[c..h], s[h..h + |r.pat|], s[h + |r.pat|..];
    HitParts(s, c, h, |r.pat|, out);
    var n := StrLen(buf, out + s[c..]);
    c', out' := h + |r.pat|, head + r.msk;
    fits := hit + |r.msk| + (n - hit - |r.pat|) < buf.Length;
    assert fits <==> Fits(s, h, out', r, buf.Length);
    if fits {
      Splice(buf, hit, |r.pat|, r.msk, head, mid, tail);
    } else {
      CutMask(buf, hit, r.msk, head, head + mid + tail);
    }
  }

  /** `strstr` behind the finished output. */
  method NextHit(buf: array<char>, from: nat, r: Rule, ghost s: string, ghost c: nat, ghost out: string)
      returns (hit: int)
    requires !r.Skipped() && Rewriting(buf, s, c, out) && from == |out|
    ensures hit == if Find(s, r.pat, c) < 0 then -1 else Find(s, r.pat, c) - c + from
    ensures hit < 0 ==> HasText(buf, InPlace(s, c, out, r, buf.Length))
  {
    ghost var t := out + s[c..];
    FindShift(t, from, s, c, r.pat);
    hit := StrStr(buf, from, r.pat, t);
  }

  /** The loop of `redact_apply_locked` for one rule. */
  method ReplaceHits(buf: array<char>, r: Rule, ghost s: string)
    requires Rewriting(buf, s, 0, "") && !r.Skipped() && NUL !in r.msk
    modifies buf
    ensures HasText(buf, InPlace(s, 0, "", r, buf.Length))
  {
    ghost var c, out := 0, "";
    var from := 0;
    var hit := NextHit(buf, 0, r, s, c, out);
    while hit >= 0
      invariant from == |out| && Rewriting(buf, s, c, out)
      invariant c <= |s| && InPlace(s, c, out, r, buf.Length) == InPlace(s, 0, "", r, buf.Length)
      invariant hit == if Find(s, r.pat, c) < 0 then -1 else Find(s, r.pat, c) - c + from
      invariant hit < 0 ==> HasText(buf, InPlace(s, c, out, r, buf.Length))
      decreases |s| - c
    {
      var fits;
      fits, c, out := ReplaceHit(buf, hit, r, s, c, out);
      if !fits {
        return;
      }
      from := hit + |r.msk|;
      hit := NextHit(buf, from, r, s, c, out);
    }
  }

  /** One rule of `redact_apply_locked`. */
  method ApplyInPlace(buf: array<char>, r: Rule, ghost s: string) returns (ghost t: string)
    requires HasText(buf, s) && NUL !in r.pat && NUL !in r.msk
    modifies buf
    ensures HasText(buf, t) && RuleStep(r, buf.Length, s, t)
    ensures r.pat != "" && r.msk != "" ==>
      forall i: nat :: Leftmost(s, r.pat, i) ==> Truncated(s[..i] + r.msk, buf.Length) <= t
  {
    t := s;
    if !r.Skipped() {
      assert s == "" + s[0..];
      ReplaceHits(buf, r, s);
      t := InPlace(s, 0, "", r, buf.Length);
      InPlaceSteps(s, r, buf.Length);
      forall i: nat | Leftmost(s, r.pat, i) ensures Truncated(s[..i] + r.msk, buf.Length) <= t {
        InPlaceKeepsHead(s, r, buf.Length, i);
      }
    }
  }

  /** trace[k] is the text after the first k rules. */
  ghost predicate IsTrace(rules: seq<Rule>, size: nat, trace: seq<string>)
  {
    && |trace| == |rules| + 1
    && (forall k :: 0 <= k < |rules| ==> RuleStep(rules[k], size, trace[k], trace[k + 1]))
  }

  ghost predicate NulFree(rules: seq<Rule>)
  {
    forall k :: 0 <= k < |rules| ==> NUL !in rules[k].pat && NUL !in rules[k].msk
  }

  /** `redact_apply_locked`: the whole message buffer, rule after rule. */
  method ApplyAllInPlace(buf: array<char>, rules: seq<Rule>, ghost s: string) returns (ghost trace: seq<string>)
    requires HasText(buf, s) && NulFree(rules)
    modifies buf
    ensures IsTrace(rules, buf.Length, trace) && trace[0] == s && HasText(buf, trace[|rules|])
  {
    trace := [s];
    var k := 0;
    while k < |rules|
      invariant 0 <= k <= |rules| && |trace| == k + 1 && trace[0] == s && HasText(buf, trace[k])
      invariant forall j :: 0 <= j < k ==> RuleStep(rules[j], buf.Length, trace[j], trace[j + 1])
    {
      ghost var t := ApplyInPlace(buf, rules[k], trace[k]);
      trace := trace + [t];
      k := k + 1;
    }
  }
}
