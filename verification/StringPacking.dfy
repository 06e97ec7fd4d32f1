/** NUL-terminated strings packed one after another into a byte block. */
module StringPacking {
  import opened CStrings

  datatype Text = Absent | Present(str: string)

  /** The C string that starts at `off`: everything up to the first NUL. */
  function CString(bytes: seq<char>, off: nat): (s: string)
    requires off <= |bytes|
    ensures NUL !in s && off + |s| <= |bytes| && s == bytes[off..off + |s|]
    ensures off + |s| < |bytes| ==> bytes[off + |s|] == NUL
    decreases |bytes| - off
  {
    if off == |bytes| || bytes[off] == NUL then []
    else [bytes[off]] + CString(bytes, off + 1)
  }

  lemma CStringIs(bytes: seq<char>, off: nat, s: string)
    requires NUL !in s && StoredAt(bytes, off, Present(s))
    ensures CString(bytes, off) == s
  {
    CStringFrom(bytes, off, s, 0);
    assert s[0..] == s;
  }

  lemma {:induction false} CStringFrom(bytes: seq<char>, off: nat, s: string, i: nat)
    requires NUL !in s && StoredAt(bytes, off, Present(s)) && i <= |s|
    ensures CString(bytes, off + i) == s[i..]
    decreases |s| - i
  {
    if i == |s| {
    } else {
      CStringFrom(bytes, off, s, i + 1);
      assert s[i..] == [s[i]] + s[i + 1..];
    }
  }

  /** How many bytes a text takes: none, or its length and the terminator. */
  function Size(t: Text): nat
  {
    if t.Absent? then 0 else |t.str| + 1
  }

  /** The text is stored in the block at the given offset. */
  ghost predicate StoredAt(block: seq<char>, at: nat, t: Text)
  {
    && at + Size(t) <= |block|
    && (t.Present? ==> block[at + |t.str|] == NUL && forall i :: 0 <= i < |t.str| ==> block[at + i] == t.str[i])
  }

  /** Where text k starts when the texts are packed from offset 0. */
  function Start(ts: seq<Text>, k: nat): nat
    requires k <= |ts|
  {
    if k == 0 then 0 else Start(ts, k - 1) + Size(ts[k - 1])
  }

  /** How many bytes the packed texts take. */
  function Total(ts: seq<Text>): nat
  {
    Start(ts, |ts|)
  }

  /** The first k texts are stored in the block, each behind the previous one. */
  ghost predicate Holds(block: seq<char>, ts: seq<Text>, k: nat)
    requires k <= |ts|
  {
    k > 0 ==> Holds(block, ts, k - 1) && StoredAt(block, Start(ts, k - 1), ts[k - 1])
  }

  ghost predicate NoNul(ts: seq<Text>)
  {
    forall k :: 0 <= k < |ts| && ts[k].Present? ==> NUL !in ts[k].str
  }

  lemma {:induction false} StartMonotone(ts: seq<Text>, j: nat, k: nat)
    requires j <= k <= |ts|
    ensures Start(ts, j) <= Start(ts, k)
    decreases k - j
  {
    if j == k {
    } else {
      StartMonotone(ts, j, k - 1);
    }
  }

  lemma {:induction false} HoldsPrefix(block: seq<char>, ts: seq<Text>, j: nat, k: nat)
    requires j <= k <= |ts| && Holds(block, ts, k)
    ensures Holds(block, ts, j)
    decreases k - j
  {
    if j == k {
    } else {
      HoldsPrefix(block, ts, j, k - 1);
    }
  }

  /** Writing at and behind Start(ts, k) leaves the first k texts in place. */
  lemma {:induction false} HoldsFrame(block: seq<char>, block': seq<char>, ts: seq<Text>, k: nat)
    requires k <= |ts| && Holds(block, ts, k) && Start(ts, k) <= |block| == |block'|
    requires forall i :: 0 <= i < Start(ts, k) ==> block[i] == block'[i]
    ensures Holds(block', ts, k)
    decreases k
  {
    if k == 0 {
    } else {
      HoldsFrame(block, block', ts, k - 1);
    }
  }

  /** Reading a block back at the start of text k gives text k. */
  lemma {:induction false} ReadBack(block: seq<char>, ts: seq<Text>, k: nat)
    requires Holds(block, ts, |ts|) && NoNul(ts) && k < |ts| && ts[k].Present?
    ensures Start(ts, k) + |ts[k].str| < |block| && CString(block, Start(ts, k)) == ts[k].str
  {
    HoldsPrefix(block, ts, k + 1, |ts|);
    assert StoredAt(block, Start(ts, k), ts[k]);
    CStringIs(block, Start(ts, k), ts[k].str);
  }

  /** Packed texts never overlap and never pass the end of the block. */
  lemma {:induction false} PackedDisjoint(ts: seq<Text>, j: nat, k: nat)
    requires j < k < |ts|
    ensures Start(ts, j) + Size(ts[j]) <= Start(ts, k)
    ensures Start(ts, k) + Size(ts[k]) <= Total(ts)
  {
    StartMonotone(ts, j + 1, k);
    StartMonotone(ts, k + 1, |ts|);
  }
}
