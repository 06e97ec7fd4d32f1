/** The two redactors that build the result in other memory: alternating stack buffers for the
    message (`redact_apply_all_locked`), heap blocks for attribute values
    (`redact_apply_all_heap_locked`), over `redact_expand_len` and `redact_expand_copy`. */
module RedactionCopies {
  import opened CStrings
  import opened ReplaceAll
  import opened Redaction

  /** The hits of a scan that resumes behind each hit. */
  function Hits(s: string, c: nat, r: Rule): nat
    requires !r.Skipped()
    decreases |s| - c
  {
    var hit := Find(s, r.pat, c);
    if hit < 0 then 0 else 1 + Hits(s, hit + |r.pat|, r)
  }

  /** `(src_len - count * pat_len) + count * msk_len`. */
  function ExpandedLen(n: int, count: nat, p: nat, m: nat): int
  {
    n - count * p + count * m
  }

  lemma OneMore(n: int, k: int, count: nat, p: nat, m: nat)
    ensures ExpandedLen(n, count + 1, p, m) == k + m + ExpandedLen(n - k - p, count, p, m)
  {
    assert (count + 1) * p == count * p + p && (count + 1) * m == count * m + m;
  }

  lemma LengthStep(s: string, c: nat, r: Rule)
    requires !r.Skipped() && c <= |s| && Find(s, r.pat, c) >= 0
    ensures var hit := Find(s, r.pat, c);
      var next := hit + |r.pat|;
      ExpandedLen(|s| - c, Hits(s, c, r), |r.pat|, |r.msk|) ==
      (hit - c) + |r.msk| + ExpandedLen(|s| - next, Hits(s, next, r), |r.pat|, |r.msk|)
  {
    var hit := Find(s, r.pat, c);
    OneMore(|s| - c, hit - c, Hits(s, hit + |r.pat|, r), |r.pat|, |r.msk|);
  }

  /** The length `redact_expand_len` computes is the length of the replacement. */
  lemma {:induction false} LengthOfReplacement(s: string, c: nat, r: Rule)
    requires !r.Skipped() && c <= |s|
    ensures |Replace(s, c, r)| == ExpandedLen(|s| - c, Hits(s, c, r), |r.pat|, |r.msk|)
    decreases |s| - c
  {
    var hit := Find(s, r.pat, c);
    if hit < 0 {
      assert Replace(s, c, r) == s[c..] by { ReplaceNoHit(s, c, r); }
    } else {
      var next := hit + |r.pat|;
      assert |Replace(s, c, r)| == (hit - c) + |r.msk| + |Replace(s, next, r)| by { ReplaceToHit(s, c, r); }
      LengthOfReplacement(s, next, r);
      LengthStep(s, c, r);
    }
  }

  /** The counting loop of `redact_expand_len`. */
  method CountHits(src: array<char>, r: Rule, ghost s: string) returns (count: nat)
    requires HasText(src, s) && !r.Skipped()
    ensures count == Hits(s, 0, r)
  {
    count := 0;
    var cur := 0;
    var hit := StrStr(src, 0, r.pat, s);
    while hit >= 0
      invariant 0 <= cur <= |s| && hit == Find(s, r.pat, cur) && count + Hits(s, cur, r) == Hits(s, 0, r)
      decreases |s| - cur
    {
      count := count + 1;
      cur := hit + |r.pat|;
      hit := StrStr(src, cur, r.pat, s);
    }
  }

  /** `redact_expand_len`. */
  method ExpandLen(src: array<char>, r: Rule, ghost s: string) returns (len: nat, count: nat)
    requires HasText(src, s) && !r.Skipped()
    ensures len == |Replaced(s, r)|
    ensures count == 0 ==> Replaced(s, r) == s
    ensures count > 0 <==> Occurs(s, r.pat)
  {
    count := CountHits(src, r, s);
    assert count > 0 <==> Occurs(s, r.pat) by { FindIff(s, r.pat); }
    var n := StrLen(src, s);
    LengthOfReplacement(s, 0, r);
    if count == 0 {
      assert Find(s, r.pat, 0) < 0;
      ReplaceNoHit(s, 0, r);
      assert s[0..] == s;
    }
    len := ExpandedLen(n, count, |r.pat|, |r.msk|);
  }

  /** The block starts with the given characters. */
  ghost predicate Begins(dst: array<char>, done: string)
    reads dst
  {
    |done| <= dst.Length && forall k :: 0 <= k < |done| ==> dst[k] == done[k]
  }

  /** One piece of the copy: the text up to the hit, then the mask. */
  method CopyPiece(dst: array<char>, at: nat, src: array<char>, from: nat, hit: nat, msk: string, ghost s: string,
    ghost done: string)
    requires dst != src && HasText(src, s) && from <= hit <= |s| && at + (hit - from) + |msk| <= dst.Length
    requires Begins(dst, done) && at == |done|
    modifies dst
    ensures Begins(dst, done + s[from..hit] + msk)
  {
    var mid := at + (hit - from);
    forall k | at <= k < mid {
      dst[k] := src[from + (k - at)];
    }
    forall k | mid <= k < mid + |msk| {
      dst[k] := msk[k - mid];
    }
  }

  /** The rest of the source with its terminator. */
  method CopyRest(dst: array<char>, at: nat, src: array<char>, cur: nat, ghost s: string, ghost done: string)
    requires dst != src && HasText(src, s) && cur <= |s| && at == |done| && at + (|s| - cur) < dst.Length &&
      Begins(dst, done)
    modifies dst
    ensures Begins(dst, done + s[cur..]) && dst[|done| + (|s| - cur)] == NUL
  {
    var n := StrLen(src, s);
    forall k | at <= k <= at + (n - cur) {
      dst[k] := src[cur + (k - at)];
    }
  }

  /** `done` is written, and the replacement of the source from cur on is still to come. */
  ghost predicate Copying(dst: array<char>, s: string, cur: nat, r: Rule, done: string)
    requires !r.Skipped()
    reads dst
  {
    cur <= |s| && Begins(dst, done) && Replaced(s, r) == done + Replace(s, cur, r) && |Replaced(s, r)| < dst.Length
  }

  lemma StartCopying(dst: array<char>, s: string, r: Rule)
    requires !r.Skipped() && |Replaced(s, r)| < dst.Length
    ensures Copying(dst, s, 0, r, "")
  {
    assert Replaced(s, r) == "" + Replace(s, 0, r);
  }

  method CopyHit(dst: array<char>, src: array<char>, cur: nat, hit: nat, r: Rule, ghost s: string, at: nat,
    ghost done: string)
    returns (next: nat, ghost done': string)
    requires dst != src && HasText(src, s) && !r.Skipped() && Copying(dst, s, cur, r, done) && at == |done|
    requires hit == Find(s, r.pat, cur)
    modifies dst
    ensures Copying(dst, s, hit + |r.pat|, r, done') && next == |done'|
  {
    done' := done + s[cur..hit] + r.msk;
    assert Replaced(s, r) == done' + Replace(s, hit + |r.pat|, r) by { HitExtends(s, cur, r, done); }
    CopyPiece(dst, at, src, cur, hit, r.msk, s, done);
    next := at + (hit - cur) + |r.msk|;
  }

  method CopyEnd(dst: array<char>, src: array<char>, cur: nat, r: Rule, ghost s: string, at: nat, ghost done: string)
    requires dst != src && HasText(src, s) && !r.Skipped() && NUL !in r.msk && Copying(dst, s, cur, r, done) &&
      at == |done|
    requires Find(s, r.pat, cur) < 0
    modifies dst
    ensures HasText(dst, Replaced(s, r))
  {
    assert Replaced(s, r) == done + s[cur..] by { ReplaceNoHit(s, cur, r); }
    assert NUL !in Replaced(s, r) by { ReplaceNulFree(s, 0, r); }
    CopyRest(dst, at, src, cur, s, done);
  }

  /** One turn of the loop: the piece up to the hit and the mask, then the search for the next. */
  method CopyAndSearch(dst: array<char>, src: array<char>, cur: nat, hit: nat, r: Rule, ghost s: string, at: nat,
    ghost done: string)
    returns (cur': nat, hit': int, at': nat, ghost done': string)
    requires dst != src && HasText(src, s) && !r.Skipped() && Copying(dst, s, cur, r, done) && at == |done|
    requires hit == Find(s, r.pat, cur)
    modifies dst
    ensures HasText(src, s) && Copying(dst, s, cur', r, done') && at' == |done'|
    ensures cur < cur' <= |s| && hit' == Find(s, r.pat, cur')
  {
    at', done' := CopyHit(dst, src, cur, hit, r, s, at, done);
    cur' := hit + |r.pat|;
    hit' := StrStr(src, cur', r.pat, s);
  }

  /** `redact_expand_copy`; source and destination are different blocks. */
  method ExpandCopy(src: array<char>, r: Rule, dst: array<char>, ghost s: string)
    requires HasText(src, s) && !r.Skipped() && NUL !in r.msk && dst != src && |Replaced(s, r)| < dst.Length
    modifies dst
    ensures HasText(dst, Replaced(s, r))
  {
    var cur, at := 0, 0;
    ghost var done := "";
    StartCopying(dst, s, r);
    var hit := StrStr(src, 0, r.pat, s);
    while hit >= 0
      invariant HasText(src, s) && Copying(dst, s, cur, r, done) && at == |done| && hit == Find(s, r.pat, cur)
      decreases |s| - cur
    {
      cur, hit, at, done := CopyAndSearch(dst, src, cur, hit, r, s, at, done);
    }
    CopyEnd(dst, src, cur, r, s, at, done);
  }

  lemma {:induction false} ReplaceNulFree(s: string, c: nat, r: Rule)
    requires !r.Skipped() && c <= |s| && NUL !in s && NUL !in r.msk
    ensures NUL !in Replace(s, c, r)
    decreases |s| - c
  {
    if c == |s| {
    } else if OccursAt(s, r.pat, c) {
      ReplaceNulFree(s, c + |r.pat|, r);
    } else {
      ReplaceNulFree(s, c + 1, r);
    }
  }

  // ---- all rules ----

  /** The rules in order, each the complete replacement; a rule whose result needs more than
      `limit` bytes is skipped when its allocation fails. */
  function Fold(rules: seq<Rule>, n: nat, s: string, limit: nat, mallocOk: seq<bool>): string
    requires n <= |rules| == |mallocOk|
  {
    if n == 0 then s
    else
      var u := Fold(rules, n - 1, s, limit, mallocOk);
      var v := Replaced(u, rules[n - 1]);
      if |v| + 1 > limit && !mallocOk[n - 1] then u else v
  }

  /** `redact_apply_one_buf`: null when nothing matched or the allocation failed. */
  method ApplyOne(src: array<char>, r: Rule, tmp: array<char>, mallocOk: bool, ghost s: string)
    returns (rep: array?<char>, onStack: bool)
    requires HasText(src, s) && !r.Skipped() && NUL !in r.msk && tmp != src
    modifies tmp
    ensures rep == null ==> Replaced(s, r) == s || (|Replaced(s, r)| + 1 > tmp.Length && !mallocOk)
    ensures rep == null ==> forall k :: 0 <= k < tmp.Length ==> tmp[k] == old(tmp[k])
    ensures rep != null ==> HasText(rep, Replaced(s, r)) && (|Replaced(s, r)| + 1 <= tmp.Length || mallocOk)
    ensures rep != null ==> if onStack then rep == tmp else fresh(rep)
  {
    var newLen, count := ExpandLen(src, r, s);
    onStack := newLen + 1 <= tmp.Length;
    if count == 0 {
      return null, onStack;
    }
    if onStack {
      ExpandCopy(src, r, tmp, s);
      return tmp, true;
    }
    if !mallocOk {
      return null, false;
    }
    var block := new char[newLen + 1];
    ExpandCopy(src, r, block, s);
    return block, false;
  }

  /** `redact_apply_all_locked`.  The result is in the source, in one of the two stack buffers or
      in `owned`; every other block that was allocated has been freed, and no rule reads the
      buffer it writes (the precondition `tmp != src` of ApplyOne). */
  method ApplyAll(src: array<char>, rules: seq<Rule>, tmpA: array<char>, tmpB: array<char>, mallocOk: seq<bool>,
    ghost s: string)
    returns (cur: array<char>, owned: array?<char>, ghost live: set<array<char>>)
    requires HasText(src, s) && NulFree(rules) && |mallocOk| == |rules|
    requires src != tmpA && src != tmpB && tmpA != tmpB && tmpA.Length == tmpB.Length == TMP_LEN
    modifies tmpA, tmpB
    ensures HasText(cur, Fold(rules, |rules|, s, TMP_LEN, mallocOk)) && HasText(src, s)
    ensures owned == null ==> cur in {src, tmpA, tmpB} && live == {}
    ensures owned != null ==> cur == owned && fresh(owned) && live == {owned}
  {
    cur, owned, live := src, null, {};
    var flip := false;
    var k := 0;
    while k < |rules|
      invariant 0 <= k <= |rules| && HasText(src, s)
      invariant HasText(cur, Fold(rules, k, s, TMP_LEN, mallocOk))
      invariant cur != if flip then tmpB else tmpA
      invariant owned == null ==> cur in {src, tmpA, tmpB} && live == {}
      invariant owned != null ==> cur == owned && fresh(owned) && live == {owned}
    {
      if !rules[k].Skipped() {
        ghost var u := Fold(rules, k, s, TMP_LEN, mallocOk);
        var rep, onStack := ApplyOne(cur, rules[k], if flip then tmpB else tmpA, mallocOk[k], u);
        if rep != null {
          live := if onStack then live else live + {rep};
          if owned != null && cur == owned {
            live := live - {owned};
            owned := null;
          }
          if onStack {
            flip := !flip;
          } else {
            owned := rep;
          }
          cur := rep;
        }
      }
      k := k + 1;
    }
  }

  /** `redact_apply_all_heap_locked`: null when nothing was replaced. */
  method ApplyAllHeap(src: array<char>, rules: seq<Rule>, mallocOk: seq<bool>, ghost s: string)
    returns (owned: array?<char>, ghost live: set<array<char>>)
    requires HasText(src, s) && NulFree(rules) && |mallocOk| == |rules|
    ensures HasText(if owned == null then src else owned, Fold(rules, |rules|, s, 0, mallocOk))
    ensures owned != null ==> fresh(owned)
    ensures live == if owned == null then {} else {owned}
  {
    var cur := src;
    owned, live := null, {};
    var k := 0;
    while k < |rules|
      invariant 0 <= k <= |rules| && HasText(src, s)
      invariant cur == (if owned == null then src else owned) && HasText(cur, Fold(rules, k, s, 0, mallocOk))
      invariant owned != null ==> fresh(owned)
      invariant live == if owned == null then {} else {owned}
    {
      if !rules[k].Skipped() {
        ghost var u := Fold(rules, k, s, 0, mallocOk);
        var newLen, count := ExpandLen(cur, rules[k], u);
        if count != 0 && mallocOk[k] {
          var rep := new char[newLen + 1];
          ExpandCopy(cur, rules[k], rep, u);
          live := live + {rep};
          if owned != null {
            live := live - {owned};
          }
          owned, cur := rep, rep;
        }
      }
      k := k + 1;
    }
  }

  // ---- what all three redactors guarantee ----

  /** The rules applied one after another. */
  function RedactAll(rules: seq<Rule>, n: nat, s: string): string
    requires n <= |rules|
  {
    if n == 0 then s else Replaced(RedactAll(rules, n - 1, s), rules[n - 1])
  }

  /** Without an allocation failure the ping-pong and the heap redactor agree: both give the
      fold of the complete replacement over the rules. */
  lemma {:induction false} FoldIsRedactAll(rules: seq<Rule>, n: nat, s: string, limit: nat, mallocOk: seq<bool>)
    requires n <= |rules| == |mallocOk| && forall k :: 0 <= k < n ==> mallocOk[k]
    ensures Fold(rules, n, s, limit, mallocOk) == RedactAll(rules, n, s)
  {
    if n == 0 {
    } else {
      FoldIsRedactAll(rules, n - 1, s, limit, mallocOk);
    }
  }

  /** So does the in-place redactor when every intermediate text fits the buffer. */
  lemma {:induction false} TraceIsRedactAll(rules: seq<Rule>, size: nat, trace: seq<string>, n: nat)
    requires IsTrace(rules, size, trace) && n <= |rules|
    requires forall k :: 0 <= k <= n ==> |RedactAll(rules, k, trace[0])| < size
    ensures trace[n] == RedactAll(rules, n, trace[0])
  {
    if n == 0 {
    } else {
      TraceIsRedactAll(rules, size, trace, n - 1);
      assert RuleStep(rules[n - 1], size, trace[n - 1], trace[n - 1 + 1]);
    }
  }

  /** Patterns and masks as the table stores them: not empty. */
  ghost predicate Stored(rules: seq<Rule>)
  {
    forall k :: 0 <= k < |rules| ==> rules[k].pat != "" && rules[k].msk != ""
  }

  /** No mask shares a character with any pattern. */
  ghost predicate MasksAreFresh(rules: seq<Rule>)
  {
    forall j, k :: 0 <= j < |rules| && 0 <= k < |rules| ==> Disjoint(rules[j].pat, rules[k].msk)
  }

  /** After n rules, none of their patterns occurs in the buffer, truncated or not. */
  lemma {:induction false} NothingLeaks(rules: seq<Rule>, size: nat, trace: seq<string>, n: nat, j: nat)
    requires IsTrace(rules, size, trace) && Stored(rules) && MasksAreFresh(rules) && j < n <= |rules|
    ensures !Occurs(trace[n], rules[j].pat)
    decreases n
  {
    var r, u := rules[n - 1], trace[n - 1];
    assert RuleStep(r, size, trace[n - 1], trace[n - 1 + 1]);
    if j < n - 1 {
      NothingLeaks(rules, size, trace, n - 1, j);
    }
    ReplaceClears(u, r, rules[j].pat);
    PrefixClears(Replaced(u, r), |trace[n]|, rules[j].pat);
  }

  /** The texts of the rules one after another are a trace, in a buffer of any size. */
  lemma RedactAllIsTrace(rules: seq<Rule>, s: string, size: nat)
    ensures IsTrace(rules, size, seq(|rules| + 1, k requires 0 <= k <= |rules| => RedactAll(rules, k, s)))
  {
  }

  /** The same for the ping-pong and the heap redactor. */
  lemma RedactAllLeaksNothing(rules: seq<Rule>, s: string, j: nat)
    requires Stored(rules) && MasksAreFresh(rules) && j < |rules|
    ensures !Occurs(RedactAll(rules, |rules|, s), rules[j].pat)
  {
    RedactAllIsTrace(rules, s, 0);
    NothingLeaks(rules, 0, seq(|rules| + 1, k requires 0 <= k <= |rules| => RedactAll(rules, k, s)), |rules|, j);
  }

  /** And when allocations fail: the pattern of every rule whose own allocation succeeds is gone,
      whatever happens to the other rules. */
  lemma {:induction false} FoldLeaksNothing(rules: seq<Rule>, n: nat, s: string, limit: nat, mallocOk: seq<bool>,
    j: nat)
    requires Stored(rules) && MasksAreFresh(rules) && j < n <= |rules| == |mallocOk| && mallocOk[j]
    ensures !Occurs(Fold(rules, n, s, limit, mallocOk), rules[j].pat)
    decreases n
  {
    if j < n - 1 {
      FoldLeaksNothing(rules, n - 1, s, limit, mallocOk, j);
    }
    ReplaceClears(Fold(rules, n - 1, s, limit, mallocOk), rules[n - 1], rules[j].pat);
  }
}
