/** Leftmost, non-overlapping replacement of a pattern, and what it leaves of patterns. */
module ReplaceAll {

  datatype Rule = Rule(pat: string, msk: string)
  {
    /** Rules with an empty pattern or mask are skipped. */
    predicate Skipped() { pat == [] || msk == [] }
  }

  predicate OccursAt(s: string, q: string, i: nat)
  {
    i + |q| <= |s| && forall k :: 0 <= k < |q| ==> s[i + k] == q[k]
  }

  ghost predicate Occurs(s: string, q: string)
  {
    exists i: nat :: OccursAt(s, q, i)
  }

  /** Replaces every occurrence of the pattern in s[i..], scanning once from the left. */
  function Replace(s: string, i: nat, r: Rule): string
    requires !r.Skipped() && i <= |s|
    decreases |s| - i
  {
    if i == |s| then []
    else if OccursAt(s, r.pat, i) then r.msk + Replace(s, i + |r.pat|, r)
    else [s[i]] + Replace(s, i + 1, r)
  }

  function Replaced(s: string, r: Rule): string
  {
    if r.Skipped() then s else Replace(s, 0, r)
  }

  /** The first occurrence at or behind i, or -1: `strstr`. */
  function Find(s: string, q: string, i: nat): (hit: int)
    requires q != []
    ensures hit == -1 || i <= hit <= |s| - |q|
    decreases |s| - i
  {
    if i + |q| > |s| then -1 else if OccursAt(s, q, i) then i else Find(s, q, i + 1)
  }

  lemma {:induction false} FindIsHit(s: string, q: string, i: nat)
    requires q != [] && Find(s, q, i) >= 0
    ensures OccursAt(s, q, Find(s, q, i))
    decreases |s| - i
  {
    if !OccursAt(s, q, i) {
      FindIsHit(s, q, i + 1);
    }
  }

  lemma {:induction false} FindMissesNone(s: string, q: string, i: nat, j: nat)
    requires q != [] && i <= j && OccursAt(s, q, j)
    ensures Find(s, q, i) >= 0
    decreases j - i
  {
    if i == j {
    } else {
      FindMissesNone(s, q, i + 1, j);
    }
  }

  /** A search from the start finds something exactly when there is something. */
  lemma FindIff(s: string, q: string)
    requires q != []
    ensures Find(s, q, 0) >= 0 <==> Occurs(s, q)
  {
    if Find(s, q, 0) >= 0 {
      FindIsHit(s, q, 0);
    } else if j: nat :| OccursAt(s, q, j) {
      FindMissesNone(s, q, 0, j);
    }
  }

  lemma ConsSlice(s: string, i: nat, j: nat, rest: string)
    requires i < j <= |s|
    ensures [s[i]] + (s[i + 1..j] + rest) == s[i..j] + rest
  {
    assert s[i..j] == [s[i]] + s[i + 1..j];
  }

  /** The scan without an occurrence. */
  lemma {:induction false} ReplaceNoHit(s: string, i: nat, r: Rule)
    requires !r.Skipped() && i <= |s| && Find(s, r.pat, i) < 0
    ensures Replace(s, i, r) == s[i..]
    decreases |s| - i
  {
    if i == |s| {
    } else {
      assert !OccursAt(s, r.pat, i);
      assert Find(s, r.pat, i + 1) < 0;
      ReplaceNoHit(s, i + 1, r);
      assert s[i..] == [s[i]] + s[i + 1..];
    }
  }

  /** The scan up to and including the first occurrence. */
  lemma {:induction false} ReplaceToHit(s: string, i: nat, r: Rule)
    requires !r.Skipped() && i <= |s| && Find(s, r.pat, i) >= 0
    ensures var hit := Find(s, r.pat, i);
      Replace(s, i, r) == s[i..hit] + (r.msk + Replace(s, hit + |r.pat|, r))
    decreases |s| - i
  {
    var hit := Find(s, r.pat, i);
    var rest := r.msk + Replace(s, hit + |r.pat|, r);
    if hit == i {
      assert s[i..i] + rest == rest;
    } else {
      assert Find(s, r.pat, i + 1) == hit;
      assert Replace(s, i + 1, r) == s[i + 1..hit] + rest by { ReplaceToHit(s, i + 1, r); }
      ConsSlice(s, i, hit, rest);
      assert Replace(s, i, r) == [s[i]] + Replace(s, i + 1, r);
    }
  }

  /** The strings share no character. */
  ghost predicate Disjoint(a: string, b: string)
  {
    forall i, j :: 0 <= i < |a| && 0 <= j < |b| ==> a[i] != b[j]
  }

  lemma Behind(a: string, b: string, q: string, p: nat)
    requires OccursAt(a + b, q, p) && |a| <= p
    ensures OccursAt(b, q, p - |a|)
  {
    forall k | 0 <= k < |q| ensures b[p - |a| + k] == q[k] {
      assert (a + b)[p + k] == b[p + k - |a|];
    }
  }

  lemma NotInMask(msk: string, b: string, q: string, p: nat)
    requires q != [] && Disjoint(q, msk) && OccursAt(msk + b, q, p)
    ensures |msk| <= p
  {
    assert (msk + b)[p + 0] == q[0];
  }

  /** What the output starts with, free of mask characters, the input starts with. */
  lemma {:induction false} OutputPrefix(s: string, i: nat, r: Rule, q: string, n: nat)
    requires !r.Skipped() && i <= |s| && Disjoint(q, r.msk)
    requires n <= |q| && n <= |Replace(s, i, r)| && forall k :: 0 <= k < n ==> Replace(s, i, r)[k] == q[k]
    ensures i + n <= |s| && forall k :: 0 <= k < n ==> s[i + k] == q[k]
    decreases n
  {
    if n == 0 {
    } else {
      var out := Replace(s, i, r);
      assert out[0] == q[0];
      if OccursAt(s, r.pat, i) {
        assert false;
      } else {
        var rest := Replace(s, i + 1, r);
        assert out == [s[i]] + rest;
        forall k | 0 <= k < n - 1 ensures rest[k] == q[1..][k] {
          assert out[k + 1] == q[k + 1];
        }
        OutputPrefix(s, i + 1, r, q[1..], n - 1);
        forall k | 0 <= k < n ensures s[i + k] == q[k] {
          if k > 0 {
            assert s[i + 1 + (k - 1)] == q[1..][k - 1];
          }
        }
      }
    }
  }

  /** An occurrence in the output that avoids mask characters is an occurrence in the input,
      at a position where the pattern does not occur. */
  lemma {:induction false} OutputOccurrence(s: string, i: nat, r: Rule, q: string, p: nat) returns (j: nat)
    requires !r.Skipped() && i <= |s| && q != [] && Disjoint(q, r.msk) && OccursAt(Replace(s, i, r), q, p)
    ensures OccursAt(s, q, j) && !OccursAt(s, r.pat, j)
    decreases |s| - i
  {
    var out := Replace(s, i, r);
    if OccursAt(s, r.pat, i) {
      var rest := Replace(s, i + |r.pat|, r);
      NotInMask(r.msk, rest, q, p);
      Behind(r.msk, rest, q, p);
      j := OutputOccurrence(s, i + |r.pat|, r, q, p - |r.msk|);
    } else if p == 0 {
      forall k | 0 <= k < |q| ensures out[k] == q[k] {
        assert out[0 + k] == q[k];
      }
      OutputPrefix(s, i, r, q, |q|);
      j := i;
    } else {
      Behind([s[i]], Replace(s, i + 1, r), q, p);
      j := OutputOccurrence(s, i + 1, r, q, p - 1);
    }
  }

  /** Masking a pattern removes it, and brings no other pattern back. */
  lemma ReplaceClears(s: string, r: Rule, q: string)
    requires r.pat != "" && r.msk != "" && q != [] && Disjoint(q, r.msk)
    requires q == r.pat || !Occurs(s, q)
    ensures !Occurs(Replaced(s, r), q)
  {
    if p: nat :| OccursAt(Replaced(s, r), q, p) {
      var j := OutputOccurrence(s, 0, r, q, p);
    }
  }

  /** A prefix contains nothing the whole does not contain. */
  lemma PrefixClears(s: string, n: nat, q: string)
    requires n <= |s| && !Occurs(s, q)
    ensures !Occurs(s[..n], q)
  {
    if i: nat :| OccursAt(s[..n], q, i) {
      forall k | 0 <= k < |q| ensures s[i + k] == q[k] {
        assert s[..n][i + k] == q[k];
      }
      assert OccursAt(s, q, i);
    }
  }

  // ---- what is replaced ----

  predicate Leftmost(s: string, q: string, i: nat)
  {
    OccursAt(s, q, i) && forall k :: 0 <= k < i ==> !OccursAt(s, q, k)
  }

  /** t is the end of s behind d characters. */
  predicate IsRest(t: string, s: string, d: nat)
  {
    d + |t| == |s| && forall k :: 0 <= k < |t| ==> t[k] == s[d + k]
  }

  lemma SameOccurrence(t: string, s: string, d: nat, q: string, j: nat)
    requires IsRest(t, s, d) && j <= |t|
    ensures OccursAt(t, q, j) <==> OccursAt(s, q, d + j)
  {
    if OccursAt(t, q, j) {
      forall k | 0 <= k < |q| ensures s[d + j + k] == q[k] {
        assert t[j + k] == s[d + (j + k)];
      }
    }
    if OccursAt(s, q, d + j) {
      forall k | 0 <= k < |q| ensures t[j + k] == q[k] {
        assert t[j + k] == s[d + (j + k)];
      }
    }
  }

  /** Replacing in the rest of a string is replacing from there on. */
  lemma {:induction false} ReplaceRest(t: string, s: string, d: nat, r: Rule, j: nat)
    requires IsRest(t, s, d) && !r.Skipped() && j <= |t|
    ensures Replace(t, j, r) == Replace(s, d + j, r)
    decreases |t| - j
  {
    if j == |t| {
    } else {
      SameOccurrence(t, s, d, r.pat, j);
      ReplaceRest(t, s, d, r, if OccursAt(t, r.pat, j) then j + |r.pat| else j + 1);
    }
  }

  lemma {:induction false} LeftmostIsFound(s: string, q: string, i: nat, hit: nat)
    requires q != [] && i <= hit && OccursAt(s, q, hit) && forall k :: i <= k < hit ==> !OccursAt(s, q, k)
    ensures Find(s, q, i) == hit
    decreases hit - i
  {
    if i == hit {
    } else {
      LeftmostIsFound(s, q, i + 1, hit);
    }
  }

  /** The replacement, rule by rule and occurrence by occurrence: a rule without pattern or mask and a
      string without the pattern change nothing; otherwise the text before the leftmost occurrence
      stays, the occurrence becomes the mask, and the rest is replaced in the same way. */
  lemma ReplacedIs(s: string, r: Rule)
    ensures r.pat == "" || r.msk == "" ==> Replaced(s, r) == s
    ensures !Occurs(s, r.pat) ==> Replaced(s, r) == s
    ensures r.pat != "" && r.msk != "" ==>
      forall i: nat :: Leftmost(s, r.pat, i) ==> Replaced(s, r) == s[..i] + r.msk + Replaced(s[i + |r.pat|..], r)
  {
    if r.pat != "" && r.msk != "" {
      if !Occurs(s, r.pat) {
        FindIff(s, r.pat);
        ReplaceNoHit(s, 0, r);
        assert s[0..] == s;
      }
      forall i: nat | Leftmost(s, r.pat, i)
        ensures Replaced(s, r) == s[..i] + r.msk + Replaced(s[i + |r.pat|..], r)
      {
        LeftmostIsFound(s, r.pat, 0, i);
        ReplaceToHit(s, 0, r);
        ReplaceRest(s[i + |r.pat|..], s, i + |r.pat|, r, 0);
        assert s[0..i] == s[..i];
        assert s[..i] + (r.msk + Replaced(s[i + |r.pat|..], r)) == s[..i] + r.msk + Replaced(s[i + |r.pat|..], r);
      }
    }
  }
}
