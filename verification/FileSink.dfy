/** `file_rotate_file` and `file_write` over a file system in memory.  I/O does not fail. */
module FileSink {
  import opened Rotation

  datatype Entry = Gone | Has(content: string)

  ghost function At(f: Files, i: nat): Entry
  {
    if i in f then Has(f[i]) else Gone
  }

  lemma SameEntries(f: Files, g: Files)
    requires forall k: nat :: At(f, k) == At(g, k)
    ensures f == g
  {
    forall k: nat ensures k in f <==> k in g {
      assert At(f, k) == At(g, k);
    }
    forall k | k in f ensures f[k] == g[k] {
      assert At(f, k) == At(g, k);
    }
  }

  /** The files of one chain: number 0 is the active path, number i the path with suffix `.i`. */
  class FileSystem {
    var files: Files

    constructor ()
      ensures files == map[]
    {
      files := map[];
    }

    /** A missing file is reported and left missing. */
    method Unlink(i: nat) returns (found: bool)
      modifies this
      ensures found == (i in old(files))
      ensures forall k: nat :: At(files, k) == if k == i then Gone else At(old(files), k)
    {
      found := i in files;
      files := map k | k in files && k != i :: files[k];
    }

    method Rename(src: nat, dst: nat)
      requires src in files && src != dst
      modifies this
      ensures forall k: nat ::
        At(files, k) == if k == src then Gone else if k == dst then At(old(files), src) else At(old(files), k)
    {
      var content := files[src];
      files := map k | k in files && k != src :: files[k];
      files := files[dst := content];
    }

    /** Opening for append creates the file. */
    method OpenAppend()
      modifies this
      ensures files == old(files)[0 := Content(old(files), 0)]
    {
      if 0 !in files {
        files := files[0 := ""];
      }
      assert files == old(files)[0 := Content(old(files), 0)];
    }

    method Append(data: string)
      modifies this
      ensures files == Appended(old(files), data)
    {
      files := files[0 := Content(files, 0) + data];
    }
  }

  datatype Rc = Ok | Invalid | NoEntry

  /** What file k holds when the files from i up to n - 1 have moved up and n was dropped. */
  ghost function Shifted(was: Files, n: nat, i: nat, k: nat): Entry
  {
    if k > n || k < i then At(was, k) else if k == i then Gone else At(was, k - 1)
  }

  /** `file_rotate_file`. */
  method Rotate(fs: FileSystem, maxBackups: int) returns (rc: Rc)
    modifies fs
    ensures rc == if maxBackups <= 0 then Invalid else if 0 in old(fs.files) then Ok else NoEntry
    ensures fs.files == if maxBackups <= 0 then old(fs.files) else Rotated(old(fs.files), maxBackups)
  {
    if maxBackups <= 0 {
      return Invalid;
    }
    ghost var was := fs.files;
    var _ := fs.Unlink(maxBackups);
    var i := maxBackups;
    while i > 1
      invariant 1 <= i <= maxBackups && forall k: nat :: At(fs.files, k) == Shifted(was, maxBackups, i, k)
    {
      i := i - 1;
      assert At(fs.files, i) == At(was, i);
      if i in fs.files {
        fs.Rename(i, i + 1);
      }
    }
    assert At(fs.files, 0) == At(was, 0);
    if 0 in fs.files {
      fs.Rename(0, 1);
      rc := Ok;
    } else {
      rc := NoEntry;
    }
    ShiftedIsRotated(was, fs.files, maxBackups);
  }

  lemma ShiftedIsRotated(was: Files, now: Files, n: nat)
    requires n >= 1 && forall k: nat :: At(now, k) == Shifted(was, n, 0, k)
    ensures now == Rotated(was, n)
  {
    var r := Rotated(was, n);
    forall k: nat ensures At(now, k) == At(r, k) {
      assert HasBelow(was, k) <==> k >= 1 && k - 1 in was;
    }
    SameEntries(now, r);
  }

  class Sink {
    const fs: FileSystem
    const maxSize: nat
    const backups: int
    var currentSize: nat
    ghost var rotations: nat

    ghost function View(): Rotation.Sink
      reads this, fs
    {
      Rotation.Sink(fs.files, currentSize, rotations)
    }

    /** The active file is open, so it exists. */
    ghost predicate Open()
      reads fs
    {
      0 in fs.files
    }

    constructor (fs: FileSystem, maxSize: nat, backups: int)
      modifies fs
      ensures this.fs == fs && this.maxSize == maxSize && this.backups == backups && rotations == 0
      ensures Open() && currentSize == |Content(fs.files, 0)| &&
        fs.files == old(fs.files)[0 := Content(old(fs.files), 0)]
    {
      this.fs, this.maxSize, this.backups := fs, maxSize, backups;
      rotations := 0;
      currentSize := |Content(fs.files, 0)|;
      new;
      fs.OpenAppend();
    }

    /** Each turn of the loop writes as much as the stream takes. */
    method WriteAll(data: string)
      requires Open()
      modifies fs
      ensures fs.files == Appended(old(fs.files), data)
    {
      var n := 0;
      ghost var was := fs.files;
      assert was[0] + data[..n] == was[0];
      assert was == was[0 := was[0]];
      while n < |data|
        invariant 0 <= n <= |data| && fs.files == Appended(was, data[..n])
      {
        var k :| 0 < k <= |data| - n;
        fs.Append(data[n..n + k]);
        assert data[..n] + data[n..n + k] == data[..n + k];
        assert Content(was, 0) + data[..n] + data[n..n + k] == Content(was, 0) + data[..n + k];
        assert fs.files == Appended(was, data[..n + k]);
        n := n + k;
      }
      assert data[..n] == data;
    }

    /** `file_write`. */
    method Write(data: string) returns (n: nat)
      requires Open()
      modifies this, fs
      ensures Open() && n == |data| && View() == Written(old(View()), maxSize, backups, data)
    {
      WriteAll(data);
      n := |data|;
      currentSize := currentSize + n;
      if maxSize > 0 && currentSize >= maxSize {
        ghost var f := fs.files;
        var rc := Rotate(fs, backups);
        if rc == Ok {
          rotations := rotations + 1;
          assert !HasBelow(f, 0);
        } else {
          assert fs.files[0 := Content(fs.files, 0)] == fs.files;
        }
        fs.OpenAppend();
        currentSize := 0;
      }
    }
  }
}
