/** Rotation as values: the numbered chain of a log file, what rotating and writing do to it, and
    what whole runs of the file sink keep. */
module Rotation {
  import opened CStrings

  /** File 0 is the active file and file i its backup number i. */
  type Files = map<nat, string>

  function Content(f: Files, i: nat): string
  {
    if i in f then f[i] else ""
  }

  /** The contents of backup i, backup i - 1, and so on to the active file. */
  function Chain(f: Files, i: nat): string
  {
    if i == 0 then Content(f, 0) else Content(f, i) + Chain(f, i - 1)
  }

  predicate HasBelow(f: Files, i: nat) { i >= 1 && i - 1 in f }

  /** Backup n is dropped and every other file moves up by one. */
  function Rotated(f: Files, n: nat): Files
  {
    (map i | i in f && i > n :: f[i]) + (map i: nat | i <= n && HasBelow(f, i) :: f[i - 1])
  }

  function Appended(f: Files, data: string): Files
  {
    f[0 := Content(f, 0) + data]
  }

  /** The sink: its files, the size it counts and the rotations so far. */
  datatype Sink = Sink(files: Files, size: nat, rotations: nat)

  /** `file_write` without I/O failures; without backups the rotation is refused, and the file
      is reopened with a count of zero all the same. */
  function Written(s: Sink, maxSize: nat, backups: int, data: string): Sink
  {
    var f := Appended(s.files, data);
    var size := s.size + |data|;
    if maxSize == 0 || size < maxSize then Sink(f, size, s.rotations)
    else if backups <= 0 then Sink(f, 0, s.rotations)
    else Sink(Rotated(f, backups)[0 := ""], 0, s.rotations + 1)
  }

  function Backups(backups: int): nat { if backups < 0 then 0 else backups }

  // ---- one rotation ----

  lemma RotatedAt(f: Files, n: nat, i: nat)
    requires 1 <= i <= n
    ensures var r := Rotated(f, n)[0 := ""];
      (i in r <==> i - 1 in f) && (i in r ==> r[i] == f[i - 1]) && Content(r, i) == Content(f, i - 1)
  {
    assert HasBelow(f, i) <==> i - 1 in f;
  }

  lemma {:induction false} RotatedChain(f: Files, n: nat, i: nat)
    requires 1 <= i <= n
    ensures Chain(Rotated(f, n)[0 := ""], i) == Chain(f, i - 1)
  {
    var r := Rotated(f, n)[0 := ""];
    RotatedAt(f, n, i);
    if i > 1 {
      RotatedChain(f, n, i - 1);
    } else {
      assert Chain(r, 1) == Content(r, 1) + Content(r, 0);
    }
  }

  lemma {:induction false} AppendedChain(f: Files, data: string, i: nat)
    ensures Chain(Appended(f, data), i) == Chain(f, i) + data
  {
    if i == 0 {
    } else {
      var g := Appended(f, data);
      AppendedChain(f, data, i - 1);
      assert Chain(g, i) == Content(f, i) + Chain(g, i - 1) by { assert Content(g, i) == Content(f, i); }
      Regroup(Content(f, i), Chain(f, i - 1), data);
    }
  }

  // ---- runs ----

  function After(s: Sink, maxSize: nat, backups: int, writes: seq<string>, n: nat): Sink
    requires n <= |writes|
  {
    if n == 0 then s else Written(After(s, maxSize, backups, writes, n - 1), maxSize, backups, writes[n - 1])
  }

  function Bytes(writes: seq<string>, n: nat): string
    requires n <= |writes|
  {
    if n == 0 then "" else Bytes(writes, n - 1) + writes[n - 1]
  }

  /** A write that reaches the limit rotates the file. */
  predicate Rotates(s: Sink, maxSize: nat, backups: int, data: string)
  {
    maxSize > 0 && s.size + |data| >= maxSize && backups > 0
  }

  /** What one write makes the chain lose: the oldest backup, when the file is rotated. */
  function Dropped(s: Sink, maxSize: nat, backups: int, data: string): string
  {
    if Rotates(s, maxSize, backups, data) then Content(s.files, Backups(backups)) else ""
  }

  function Lost(s: Sink, maxSize: nat, backups: int, writes: seq<string>, n: nat): string
    requires n <= |writes|
  {
    if n == 0 then ""
    else
      var t := After(s, maxSize, backups, writes, n - 1);
      Lost(s, maxSize, backups, writes, n - 1) + Dropped(t, maxSize, backups, writes[n - 1])
  }

  lemma WriteConserves(s: Sink, maxSize: nat, backups: int, data: string)
    ensures Chain(s.files, Backups(backups)) + data ==
            Dropped(s, maxSize, backups, data) + Chain(Written(s, maxSize, backups, data).files, Backups(backups))
  {
    var n := Backups(backups);
    AppendedChain(s.files, data, n);
    if Rotates(s, maxSize, backups, data) {
      RotatedChain(Appended(s.files, data), n, n);
      assert Content(Appended(s.files, data), n) == Content(s.files, n);
    }
  }

  lemma Conserved(all: string, bytes: string, lost: string, chain: string, data: string, dropped: string,
    chain': string)
    requires all + bytes == lost + chain && chain + data == dropped + chain'
    ensures all + (bytes + data) == lost + dropped + chain'
  {
    assert all + (bytes + data) == all + bytes + data == lost + (chain + data);
  }

  /** In every run, what the chain held and all that was written is, in order, what dropped out of
      the oldest backup and then the chain, backups oldest first and the active file last. */
  lemma {:induction false} ChainIsConserved(s: Sink, maxSize: nat, backups: int, writes: seq<string>, n: nat)
    requires n <= |writes|
    ensures Chain(s.files, Backups(backups)) + Bytes(writes, n) ==
            Lost(s, maxSize, backups, writes, n) + Chain(After(s, maxSize, backups, writes, n).files, Backups(backups))
  {
    if n == 0 {
      assert Chain(s.files, Backups(backups)) + "" == "" + Chain(s.files, Backups(backups));
    } else {
      ChainIsConserved(s, maxSize, backups, writes, n - 1);
      var t := After(s, maxSize, backups, writes, n - 1);
      WriteConserves(t, maxSize, backups, writes[n - 1]);
      Conserved(Chain(s.files, Backups(backups)), Bytes(writes, n - 1), Lost(s, maxSize, backups, writes, n - 1),
        Chain(t.files, Backups(backups)), writes[n - 1], Dropped(t, maxSize, backups, writes[n - 1]),
        Chain(After(s, maxSize, backups, writes, n).files, Backups(backups)));
    }
  }

  /** Without backups at first, none beyond the number of rotations appears. */
  predicate FewBackups(s: Sink, backups: int)
  {
    forall i :: s.rotations < i <= backups ==> i !in s.files
  }

  lemma WriteKeepsFew(s: Sink, maxSize: nat, backups: int, data: string)
    requires FewBackups(s, backups)
    ensures FewBackups(Written(s, maxSize, backups, data), backups)
    ensures s.rotations <= Written(s, maxSize, backups, data).rotations
    ensures Written(s, maxSize, backups, data).rotations <= backups ==> Dropped(s, maxSize, backups, data) == ""
  {
    var f, t := Appended(s.files, data), Written(s, maxSize, backups, data);
    if t.rotations > s.rotations {
      forall i | t.rotations < i <= backups ensures i !in t.files {
        RotatedAt(f, backups, i);
      }
    }
  }

  lemma NothingDropped(s: Sink, maxSize: nat, backups: int, writes: seq<string>, n: nat)
    requires n < |writes| && FewBackups(s, backups) && After(s, maxSize, backups, writes, n + 1).rotations <= backups
    ensures After(s, maxSize, backups, writes, n).rotations <= backups
    ensures Dropped(After(s, maxSize, backups, writes, n), maxSize, backups, writes[n]) == ""
  {
    FewStays(s, maxSize, backups, writes, n);
    WriteKeepsFew(After(s, maxSize, backups, writes, n), maxSize, backups, writes[n]);
  }

  /** From a chain without backups nothing is lost until the file was rotated more often than
      there are backups. */
  lemma {:induction false} NothingLostEarly(s: Sink, maxSize: nat, backups: int, writes: seq<string>, n: nat)
    requires n <= |writes| && FewBackups(s, backups) && After(s, maxSize, backups, writes, n).rotations <= backups
    ensures Lost(s, maxSize, backups, writes, n) == ""
  {
    if n == 0 {
    } else {
      NothingDropped(s, maxSize, backups, writes, n - 1);
      NothingLostEarly(s, maxSize, backups, writes, n - 1);
    }
  }

  lemma {:induction false} FewStays(s: Sink, maxSize: nat, backups: int, writes: seq<string>, n: nat)
    requires n <= |writes| && FewBackups(s, backups)
    ensures FewBackups(After(s, maxSize, backups, writes, n), backups)
  {
    if n == 0 {
    } else {
      FewStays(s, maxSize, backups, writes, n - 1);
      WriteKeepsFew(After(s, maxSize, backups, writes, n - 1), maxSize, backups, writes[n - 1]);
    }
  }

  /** The count is the length of the active file, and the files that were rotated hold at least
      the maximal size. */
  predicate Sized(s: Sink, maxSize: nat, backups: int)
  {
    s.size == |Content(s.files, 0)| &&
    forall i :: 1 <= i <= s.rotations && i <= backups ==> Holds(s.files, i, maxSize)
  }

  predicate Holds(f: Files, i: int, size: nat) { i in f && |f[i]| >= size }

  lemma MovedHolds(f: Files, n: nat, i: nat, size: nat)
    requires 1 <= i <= n && Holds(f, i - 1, size)
    ensures Holds(Rotated(f, n)[0 := ""], i, size)
  {
    RotatedAt(f, n, i);
  }

  /** The active file that is rotated holds the maximal size, the others keep what they have. */
  lemma AppendedHolds(s: Sink, maxSize: nat, backups: int, data: string, i: nat)
    requires Sized(s, maxSize, backups) && s.size + |data| >= maxSize && i <= s.rotations && i < backups
    ensures Holds(Appended(s.files, data), i, maxSize)
  {
    assert i > 0 ==> Holds(s.files, i, maxSize);
  }

  lemma WriteKeepsSized(s: Sink, maxSize: nat, backups: int, data: string)
    requires backups >= 1 && Sized(s, maxSize, backups)
    ensures Sized(Written(s, maxSize, backups, data), maxSize, backups)
    ensures maxSize > 0 ==> Written(s, maxSize, backups, data).size < maxSize
  {
    var t := Written(s, maxSize, backups, data);
    forall i | 1 <= i <= t.rotations && i <= backups ensures Holds(t.files, i, maxSize) {
      if Rotates(s, maxSize, backups, data) {
        AppendedHolds(s, maxSize, backups, data, i - 1);
        MovedHolds(Appended(s.files, data), backups, i, maxSize);
      } else {
        assert Holds(s.files, i, maxSize);
      }
    }
  }

  lemma {:induction false} RunKeepsSized(s: Sink, maxSize: nat, backups: int, writes: seq<string>, n: nat)
    requires backups >= 1 && n <= |writes| && s.rotations == 0 && s.size == |Content(s.files, 0)|
    ensures Sized(After(s, maxSize, backups, writes, n), maxSize, backups)
    ensures n > 0 && maxSize > 0 ==> After(s, maxSize, backups, writes, n).size < maxSize
  {
    if n == 0 {
    } else {
      RunKeepsSized(s, maxSize, backups, writes, n - 1);
      WriteKeepsSized(After(s, maxSize, backups, writes, n - 1), maxSize, backups, writes[n - 1]);
    }
  }

  /** The count matches the active file after every write exactly when there are backups or no
      limit: without backups a write that reaches the limit resets the count of a file it keeps. */
  lemma CountMatchesIff(maxSize: nat, backups: int)
    ensures (backups >= 1 || maxSize == 0) <==>
      forall s: Sink, data: string :: s.size == |Content(s.files, 0)| ==>
        Written(s, maxSize, backups, data).size == |Content(Written(s, maxSize, backups, data).files, 0)|
  {
    if backups < 1 && maxSize > 0 {
      var s := Sink(map[0 := seq(maxSize, _ => 'x')], maxSize, 0);
      var t := Written(s, maxSize, backups, "");
      assert s.size == |Content(s.files, 0)| && t.size == 0 && |Content(t.files, 0)| == maxSize;
    }
  }

  /** The chain never holds less than the rotated files must hold. */
  lemma {:induction false} ChainIsLong(s: Sink, maxSize: nat, backups: int, i: nat)
    requires Sized(s, maxSize, backups) && i <= s.rotations && i <= Backups(backups)
    ensures |Chain(s.files, i)| >= i * maxSize
  {
    if i == 0 {
    } else {
      ChainIsLong(s, maxSize, backups, i - 1);
      assert Holds(s.files, i, maxSize);
      assert i * maxSize == (i - 1) * maxSize + maxSize;
    }
  }
}
