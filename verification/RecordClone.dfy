/** Deep copy of a log record (`log_record_clone`), the two copies it makes through the ring
    (`slot->rec = *record` and `records[n] = slot->rec`, each followed by
    `log_record_rebase_inline`), and its release (`log_record_free_owned`).

    A C pointer is a memory block and an offset; a block is an array of characters. */
module RecordClone {
  import opened CStrings
  import opened StringPacking

  const MAX_INLINE_SIZE: nat := 256

  datatype Ptr = Null | At(mem: array<char>, off: nat)

  datatype Value = IntVal(i64: int) | UIntVal(u64: nat) | FloatVal(bits: nat) | StrVal(str: Ptr) | BoolVal(b: bool)

  datatype KV = KV(key: Ptr, val: Value)

  /** The fields that hold no string owned by the record: timestamp, static file and function
      names, level, ids, line, trace context. */
  datatype Meta = Meta(timestamp: nat, file: string, func: string, level: nat, tid: nat, pid: nat, line: int,
                       traceId: seq<nat>, spanId: seq<nat>, tombstone: bool)

  /** A record with its pointers followed. */
  datatype View = View(meta: Meta, scalars: seq<Value>, texts: seq<Text>)

  class LogRecord {
    var meta: Meta
    var message: Ptr
    var moduleName: Ptr
    var tag: Ptr
    var kv: seq<KV>
    const inlineBuf: array<char>

    constructor (meta: Meta)
      ensures fresh(inlineBuf) && inlineBuf.Length == MAX_INLINE_SIZE
      ensures message == moduleName == tag == Null && kv == [] && this.meta == meta
    {
      this.meta := meta;
      message, moduleName, tag, kv := Null, Null, Null, [];
      inlineBuf := new char[MAX_INLINE_SIZE];
    }
  }

  function StrOf(v: Value): Ptr
  {
    if v.StrVal? then v.str else Null
  }

  /** The string pointers of the attributes: key, then string value, of each in turn. */
  function KvPtrs(kv: seq<KV>): (ps: seq<Ptr>)
    ensures |ps| == 2 * |kv|
  {
    seq(2 * |kv|, j requires 0 <= j < 2 * |kv| => if j % 2 == 0 then kv[j / 2].key else StrOf(kv[j / 2].val))
  }

  function Ptrs(r: LogRecord): seq<Ptr>
    reads r
  {
    [r.message, r.moduleName, r.tag] + KvPtrs(r.kv)
  }

  /** The attribute values without their pointers. */
  function Scalars(kv: seq<KV>): seq<Value>
  {
    seq(|kv|, i requires 0 <= i < |kv| => if kv[i].val.StrVal? then StrVal(Null) else kv[i].val)
  }

  /** p is NULL or points to a terminated string. */
  ghost predicate IsStr(p: Ptr)
    reads if p.At? then {p.mem} else {}
  {
    p.At? ==> p.off < p.mem.Length && NUL in p.mem[p.off..]
  }

  function TextOf(p: Ptr): Text
    reads if p.At? then {p.mem} else {}
  {
    if p.Null? || p.off > p.mem.Length then Absent else Present(CString(p.mem[..], p.off))
  }

  ghost function Mems(ps: seq<Ptr>): set<array<char>>
  {
    set p | p in ps && p.At? :: p.mem
  }

  /** Pointer k is NULL or points to text k. */
  ghost predicate Denotes(ps: seq<Ptr>, texts: seq<Text>)
    reads Mems(ps)
  {
    && |ps| == |texts|
    && (forall k {:trigger ps[k]} :: 0 <= k < |ps| ==> IsStr(ps[k]) && TextOf(ps[k]) == texts[k])
  }

  /** Following the pointers of a record shows the given view; there is only one. */
  ghost predicate Shows(r: LogRecord, v: View)
    reads r, Mems(Ptrs(r))
  {
    r.meta == v.meta && Scalars(r.kv) == v.scalars && Denotes(Ptrs(r), v.texts)
  }

  // ---- packing ----

  /** The pointer to a text stored at offset `at` of a block. */
  function Place(buf: array<char>, at: nat, t: Text): Ptr
  {
    if t.Absent? then Null else At(buf, at)
  }

  /** The pointers to texts packed into a block from its start. */
  function Placed(buf: array<char>, ts: seq<Text>): (ps: seq<Ptr>)
    ensures |ps| == |ts|
  {
    seq(|ts|, k requires 0 <= k < |ts| => Place(buf, Start(ts, k), ts[k]))
  }

  lemma TextReads(buf: array<char>, ts: seq<Text>, k: nat)
    requires NoNul(ts) && Holds(buf[..], ts, |ts|) && k < |ts|
    ensures var p := Place(buf, Start(ts, k), ts[k]); TextOf(p) == ts[k] && IsStr(p)
  {
    if ts[k].Present? {
      ReadBack(buf[..], ts, k);
      Terminated(buf, Start(ts, k), |ts[k].str|);
    }
  }

  lemma Terminated(buf: array<char>, off: nat, n: nat)
    requires off + n < buf.Length && |CString(buf[..], off)| == n
    ensures NUL in buf[off..]
  {
    assert buf[off..][n] == buf[..][off + n];
  }

  /** Following the pointers to packed texts gives the texts back. */
  lemma PlacedReads(buf: array<char>, ts: seq<Text>)
    requires NoNul(ts) && Holds(buf[..], ts, |ts|)
    ensures Denotes(Placed(buf, ts), ts)
  {
    forall k | 0 <= k < |ts|
      ensures TextOf(Placed(buf, ts)[k]) == ts[k] && IsStr(Placed(buf, ts)[k])
    {
      TextReads(buf, ts, k);
    }
  }

  /** `strlen`. */
  method StrLen(p: Ptr) returns (n: nat)
    requires p.At? && IsStr(p)
    ensures p.off + n < p.mem.Length && p.mem[p.off + n] == NUL
    ensures TextOf(p) == Present(p.mem[p.off..p.off + n])
  {
    ghost var end := NulBehind(p.mem[..], p.off);
    n := ScanForNul(p.mem, p.off, end);
    StringAt(p.mem[..], p.off, n);
    assert p.mem[..][p.off..p.off + n] == p.mem[p.off..p.off + n];
  }

  lemma NulBehind(block: seq<char>, off: nat) returns (end: nat)
    requires off <= |block| && NUL in block[off..]
    ensures off <= end < |block| && block[end] == NUL
  {
    end :| off <= end < |block| && block[end] == NUL;
  }

  method ScanForNul(mem: array<char>, off: nat, ghost end: nat) returns (n: nat)
    requires off <= end < mem.Length && mem[end] == NUL
    ensures off + n <= end && mem[off + n] == NUL && forall k :: off <= k < off + n ==> mem[k] != NUL
  {
    n := 0;
    while mem[off + n] != NUL
      invariant off + n <= end && forall k :: off <= k < off + n ==> mem[k] != NUL
      decreases end - n
    {
      n := n + 1;
    }
  }

  lemma StringAt(block: seq<char>, off: nat, n: nat)
    requires off + n < |block| && block[off + n] == NUL && forall k :: off <= k < off + n ==> block[k] != NUL
    ensures CString(block, off) == block[off..off + n]
  {
    CStringIs(block, off, block[off..off + n]);
  }

  /** `memcpy` between different blocks. */
  method CopyBytes(buf: array<char>, at: nat, src: array<char>, from: nat, n: nat)
    requires src != buf && at + n <= buf.Length && from + n <= src.Length
    modifies buf
    ensures forall i :: 0 <= i < at ==> buf[i] == old(buf[i])
    ensures buf[at..at + n] == src[from..from + n]
  {
    var k := 0;
    while k < n
      invariant 0 <= k <= n
      invariant forall i :: 0 <= i < at ==> buf[i] == old(buf[i])
      invariant buf[at..at + k] == src[from..from + k]
    {
      buf[at + k] := src[from + k];
      k := k + 1;
    }
  }

  /** One `memcpy(p, src, strlen(src) + 1)` of the packing, skipped for a NULL source. */
  method PackString(buf: array<char>, at: nat, src: Ptr) returns (q: Ptr, next: nat)
    requires IsStr(src) && (src.At? ==> src.mem != buf)
    requires at + Size(TextOf(src)) <= buf.Length
    modifies buf
    ensures next == at + Size(TextOf(src)) && q == Place(buf, at, TextOf(src))
    ensures forall i :: 0 <= i < at ==> buf[i] == old(buf[i])
    ensures StoredAt(buf[..], at, TextOf(src))
  {
    if src.Null? {
      return Null, at;
    }
    var n := StrLen(src);
    CopyBytes(buf, at, src.mem, src.off, n + 1);
    StoredCopy(buf[..], at, src.mem[..], src.off, n);
    q, next := At(buf, at), at + n + 1;
  }

  lemma StoredCopy(block: seq<char>, at: nat, src: seq<char>, from: nat, n: nat)
    requires at + n < |block| && from + n < |src| && src[from + n] == NUL
    requires block[at..at + n + 1] == src[from..from + n + 1]
    ensures StoredAt(block, at, Present(src[from..from + n]))
  {
    var b, s := block[at..at + n + 1], src[from..from + n + 1];
    assert block[at..at + n] == b[..n] == s[..n] == src[from..from + n];
    assert block[at + n] == b[n] == s[n];
  }

  /** Packs text k of `texts` behind the first k, whose block is complete. */
  method PackNext(ps: seq<Ptr>, buf: array<char>, at: nat, ghost texts: seq<Text>, k: nat) returns (q: Ptr, next: nat)
    requires Denotes(ps, texts) && buf !in Mems(ps) && k < |ps| && Total(texts) <= buf.Length
    requires at == Start(texts, k) && Holds(buf[..], texts, k)
    modifies buf
    ensures Denotes(ps, texts)
    ensures next == Start(texts, k + 1) && Holds(buf[..], texts, k + 1)
    ensures q == Place(buf, at, texts[k])
  {
    StartMonotone(texts, k + 1, |texts|);
    MemOf(ps, k);
    ghost var before := buf[..];
    q, next := PackString(buf, at, ps[k]);
    HoldsFrame(before, buf[..], texts, k);
  }

  /** The write pointer of `log_record_clone` running through the inline buffer or a heap
      block: message, module, tag, then key and string value of each attribute. */
  method PackAll(ps: seq<Ptr>, buf: array<char>, ghost texts: seq<Text>) returns (out: seq<Ptr>)
    requires Denotes(ps, texts) && buf !in Mems(ps) && Total(texts) <= buf.Length
    modifies buf
    ensures out == Placed(buf, texts)
    ensures Holds(buf[..], texts, |texts|)
  {
    var at, k := 0, 0;
    out := [];
    while k < |ps|
      invariant 0 <= k <= |ps| && out == Placed(buf, texts)[..k]
      invariant at == Start(texts, k) && Holds(buf[..], texts, k)
      invariant Denotes(ps, texts)
    {
      var q, next := PackNext(ps, buf, at, texts, k);
      PlacedNext(buf, texts, k);
      out, at, k := out + [q], next, k + 1;
    }
    assert Placed(buf, texts)[..k] == Placed(buf, texts);
  }

  lemma PlacedNext(buf: array<char>, ts: seq<Text>, k: nat)
    requires k < |ts|
    ensures Placed(buf, ts)[..k] + [Place(buf, Start(ts, k), ts[k])] == Placed(buf, ts)[..k + 1]
  {
  }

  /** The attributes with their string pointers replaced. */
  function WithPtrs(kv: seq<KV>, ps: seq<Ptr>): seq<KV>
    requires |ps| == 2 * |kv|
  {
    seq(|kv|, i requires 0 <= i < |kv| =>
      KV(ps[2 * i], if kv[i].val.StrVal? then StrVal(ps[2 * i + 1]) else kv[i].val))
  }

  lemma WithPtrsHas(kv: seq<KV>, ps: seq<Ptr>)
    requires |ps| == 2 * |kv|
    requires forall i :: 0 <= i < |kv| && !kv[i].val.StrVal? ==> ps[2 * i + 1] == Null
    ensures KvPtrs(WithPtrs(kv, ps)) == ps
    ensures Scalars(WithPtrs(kv, ps)) == Scalars(kv)
  {
    forall j | 0 <= j < 2 * |kv| ensures KvPtrs(WithPtrs(kv, ps))[j] == ps[j] {
      WithPtrsAt(kv, ps, j / 2);
      assert j == 2 * (j / 2) || j == 2 * (j / 2) + 1;
    }
  }

  lemma WithPtrsAt(kv: seq<KV>, ps: seq<Ptr>, i: nat)
    requires |ps| == 2 * |kv| && i < |kv|
    requires !kv[i].val.StrVal? ==> ps[2 * i + 1] == Null
    ensures KvPtrs(WithPtrs(kv, ps))[2 * i] == ps[2 * i] && KvPtrs(WithPtrs(kv, ps))[2 * i + 1] == ps[2 * i + 1]
  {
  }

  /** Assigns the string pointers of a record, in packing order. */
  method SetPtrs(r: LogRecord, ps: seq<Ptr>)
    requires |ps| == 3 + 2 * |r.kv|
    requires forall i :: 0 <= i < |r.kv| && !r.kv[i].val.StrVal? ==> ps[4 + 2 * i] == Null
    modifies r
    ensures r.meta == old(r.meta) && Scalars(r.kv) == old(Scalars(r.kv)) && Ptrs(r) == ps
  {
    r.message, r.moduleName, r.tag := ps[0], ps[1], ps[2];
    WithPtrsHas(r.kv, ps[3..]);
    r.kv := WithPtrs(r.kv, ps[3..]);
    assert ps == [ps[0], ps[1], ps[2]] + ps[3..];
  }

  /** `total_bytes` of `log_record_clone`. */
  method TotalBytes(ps: seq<Ptr>, ghost texts: seq<Text>) returns (n: nat)
    requires Denotes(ps, texts)
    ensures n == Total(texts)
  {
    n := 0;
    var k := 0;
    while k < |ps|
      invariant 0 <= k <= |ps| && n == Start(texts, k)
    {
      if ps[k].At? {
        var len := StrLen(ps[k]);
        n := n + len + 1;
      }
      k := k + 1;
    }
  }

  lemma DenotedHaveNoNul(ps: seq<Ptr>, texts: seq<Text>)
    requires Denotes(ps, texts)
    ensures NoNul(texts)
  {
    forall k | 0 <= k < |texts| && texts[k].Present? ensures NUL !in texts[k].str {
      assert TextOf(ps[k]) == texts[k];
    }
  }

  // ---- the three copies ----

  /** Overlapping copies excluded (`restrict`), inline buffers of the declared size. */
  ghost predicate Separate(dst: LogRecord, src: LogRecord)
  {
    && dst != src && dst.inlineBuf != src.inlineBuf
    && dst.inlineBuf.Length == src.inlineBuf.Length == MAX_INLINE_SIZE
  }

  /** All strings of the record are packed into `home`. */
  ghost predicate PackedIn(r: LogRecord, v: View, home: array<char>)
    reads r, home
  {
    && r.meta == v.meta && Scalars(r.kv) == v.scalars
    && Ptrs(r) == Placed(home, v.texts) && Holds(home[..], v.texts, |v.texts|) && NoNul(v.texts)
  }

  lemma PackedShows(r: LogRecord, v: View, home: array<char>)
    requires PackedIn(r, v, home)
    ensures Shows(r, v)
  {
    PlacedReads(home, v.texts);
  }

  lemma OnlyStringsHaveText(kv: seq<KV>, ps: seq<Ptr>, texts: seq<Text>)
    requires |ps| == 3 + 2 * |kv| && Denotes(ps, texts) && ps[3..] == KvPtrs(kv)
    ensures forall i :: 0 <= i < |kv| && !kv[i].val.StrVal? ==> texts[4 + 2 * i].Absent?
  {
    forall i | 0 <= i < |kv| && !kv[i].val.StrVal? ensures texts[4 + 2 * i].Absent? {
      assert ps[4 + 2 * i] == KvPtrs(kv)[1 + 2 * i] == Null;
    }
  }

  /** `*dst = *src` and the packing of the strings into `home`. */
  method CloneInto(dst: LogRecord, src: LogRecord, home: array<char>, ghost v: View)
    requires dst != src && Shows(src, v) && home !in Mems(Ptrs(src)) && Total(v.texts) <= home.Length
    modifies dst, home
    ensures PackedIn(dst, v, home)
  {
    var ps := Ptrs(src);
    DenotedHaveNoNul(ps, v.texts);
    OnlyStringsHaveText(src.kv, ps, v.texts);
    var kv, meta := src.kv, src.meta;
    var out := PackAll(ps, home, v.texts);
    dst.meta, dst.kv := meta, kv;
    SetPtrs(dst, out);
  }

  /** `log_record_clone`: everything inline when it fits, otherwise everything in one block. */
  method Clone(dst: LogRecord, src: LogRecord, mallocOk: bool, ghost v: View) returns (rc: int, ghost home: array<char>)
    requires Separate(dst, src) && Shows(src, v) && dst.inlineBuf !in Mems(Ptrs(src))
    modifies dst, dst.inlineBuf
    ensures rc == if Total(v.texts) > MAX_INLINE_SIZE && !mallocOk then -1 else 0
    ensures rc == 0 ==> PackedIn(dst, v, home)
    ensures rc == 0 ==> if Total(v.texts) <= MAX_INLINE_SIZE then home == dst.inlineBuf
                        else fresh(home) && home.Length == Total(v.texts)
  {
    home := dst.inlineBuf;
    ghost var mems := Mems(Ptrs(src));
    var total := TotalBytes(Ptrs(src), v.texts);
    if total <= MAX_INLINE_SIZE {
      CloneInto(dst, src, dst.inlineBuf, v);
      return 0, home;
    }
    if !mallocOk {
      return -1, home;
    }
    var block := new char[total];
    assert block !in mems && Mems(Ptrs(src)) == mems;
    assert Shows(src, v);
    CloneInto(dst, src, block, v);
    rc, home := 0, block;
  }

  /** `log_record_is_inline`: only the message pointer is looked at. */
  predicate IsInline(r: LogRecord)
    reads r
  {
    r.message.At? && r.message.mem == r.inlineBuf && r.message.off < MAX_INLINE_SIZE
  }

  /** `dst->inline_buf + (p - src->inline_buf)` for a pointer into the source's buffer. */
  function Rebase(p: Ptr, to: array<char>): Ptr
  {
    if p.Null? then Null else At(to, p.off)
  }

  function RebaseAll(ps: seq<Ptr>, to: array<char>): seq<Ptr>
  {
    seq(|ps|, k requires 0 <= k < |ps| => Rebase(ps[k], to))
  }

  ghost predicate IsCopy(dst: LogRecord, src: LogRecord)
    reads dst, src, dst.inlineBuf, src.inlineBuf
  {
    && dst.meta == src.meta && Scalars(dst.kv) == Scalars(src.kv)
    && Ptrs(dst) == (if IsInline(src) then RebaseAll(Ptrs(src), dst.inlineBuf) else Ptrs(src))
    && dst.inlineBuf[..] == src.inlineBuf[..]
  }

  /** A struct copy `*dst = *src`, then `log_record_rebase_inline` when the source is inline. */
  method CopyRecord(dst: LogRecord, src: LogRecord)
    requires Separate(dst, src)
    requires IsInline(src) ==> Mems(Ptrs(src)) <= {src.inlineBuf}
    modifies dst, dst.inlineBuf
    ensures IsCopy(dst, src)
  {
    var k := 0;
    while k < MAX_INLINE_SIZE
      invariant 0 <= k <= MAX_INLINE_SIZE
      invariant forall j :: 0 <= j < k ==> dst.inlineBuf[j] == src.inlineBuf[j]
    {
      dst.inlineBuf[k] := src.inlineBuf[k];
      k := k + 1;
    }
    dst.meta, dst.message, dst.moduleName, dst.tag, dst.kv := src.meta, src.message, src.moduleName, src.tag, src.kv;
    if IsInline(src) {
      var ps := RebaseAll(Ptrs(src), dst.inlineBuf);
      OnlyStringsRebased(src.kv, ps);
      SetPtrs(dst, ps);
    }
  }

  lemma OnlyStringsRebased(kv: seq<KV>, ps: seq<Ptr>)
    requires |ps| == 3 + 2 * |kv| && forall j :: 0 <= j < 2 * |kv| && KvPtrs(kv)[j].Null? ==> ps[3 + j].Null?
    ensures forall i :: 0 <= i < |kv| && !kv[i].val.StrVal? ==> ps[4 + 2 * i] == Null
  {
    forall i | 0 <= i < |kv| && !kv[i].val.StrVal? ensures ps[4 + 2 * i] == Null {
      assert KvPtrs(kv)[1 + 2 * i].Null?;
      assert ps[3 + (1 + 2 * i)].Null?;
    }
  }

  /** Copying an inline record moves its strings to the new record's buffer. */
  lemma InlineCopy(dst: LogRecord, src: LogRecord, v: View)
    requires Separate(dst, src) && IsCopy(dst, src) && PackedIn(src, v, src.inlineBuf) && IsInline(src)
    requires Total(v.texts) <= MAX_INLINE_SIZE
    ensures PackedIn(dst, v, dst.inlineBuf) && IsInline(dst)
  {
    var ps := Placed(src.inlineBuf, v.texts);
    assert RebaseAll(ps, dst.inlineBuf) == Placed(dst.inlineBuf, v.texts);
    HoldsFrame(src.inlineBuf[..], dst.inlineBuf[..], v.texts, |v.texts|);
    assert Ptrs(dst)[0] == dst.message == Rebase(src.message, dst.inlineBuf);
  }

  /** Copies a record whose strings are packed into `home`. */
  method Forward(dst: LogRecord, src: LogRecord, ghost v: View, ghost home: array<char>)
      returns (ghost home': array<char>)
    requires Separate(dst, src) && Ptrs(src) == Placed(home, v.texts) && home != dst.inlineBuf && |v.texts| > 0
    requires home == src.inlineBuf ==> Total(v.texts) <= MAX_INLINE_SIZE
    modifies dst, dst.inlineBuf
    ensures home' == if home == src.inlineBuf && v.texts[0].Present? then dst.inlineBuf else home
    ensures Ptrs(dst) == Placed(home', v.texts) && dst.meta == src.meta && Scalars(dst.kv) == Scalars(src.kv)
    ensures PackedIn(src, v, home) ==> PackedIn(dst, v, home')
  {
    PlacedMems(home, v.texts);
    assert Ptrs(src)[0] == src.message;
    assert IsInline(src) <==> home == src.inlineBuf && v.texts[0].Present?;
    CopyRecord(dst, src);
    home' := home;
    if IsInline(src) {
      home' := dst.inlineBuf;
      assert RebaseAll(Placed(home, v.texts), home') == Placed(home', v.texts);
      if PackedIn(src, v, home) {
        InlineCopy(dst, src, v);
      }
    }
  }

  /** Which memory the pointers of a clone use. */
  lemma PlacedMems(buf: array<char>, ts: seq<Text>)
    ensures Mems(Placed(buf, ts)) <= {buf}
    ensures Mems(Placed(buf, ts)) == {} <==> Total(ts) == 0
  {
    if Total(ts) == 0 {
      forall k | 0 <= k < |ts| ensures Placed(buf, ts)[k] == Null {
        StartMonotone(ts, k + 1, |ts|);
      }
    } else {
      var k := FirstPresent(ts, |ts|);
      assert Placed(buf, ts)[k] in Placed(buf, ts);
      assert buf in Mems(Placed(buf, ts));
    }
  }

  lemma {:induction false} FirstPresent(ts: seq<Text>, n: nat) returns (k: nat)
    requires n <= |ts| && Start(ts, n) > 0
    ensures k < n && ts[k].Present?
    decreases n
  {
    if ts[n - 1].Present? {
      k := n - 1;
    } else {
      k := FirstPresent(ts, n - 1);
    }
  }

  /** The memory of a record is reused: a returning stack frame, or the slot's next lap. */
  method Reuse(r: LogRecord)
    modifies r, r.inlineBuf
  {
  }

  /** The record has a message, or no strings at all, or too many to go inline. */
  ghost predicate Movable(v: View)
  {
    |v.texts| > 0 && (v.texts[0].Present? || Total(v.texts) == 0 || Total(v.texts) > MAX_INLINE_SIZE)
  }

  /** A record's way from the caller to the worker: clone on the producer's stack, copy into
      the slot (the stack frame dies), copy into the batch (the slot is reused).  If the record
      is movable, the batch copy still shows what the caller logged, through pointers into its
      own inline buffer or into the one heap block.  Otherwise it is left with a pointer into
      the dead stack frame. */
  method ThroughRing(src: LogRecord, stack: LogRecord, slot: LogRecord, batch: LogRecord, mallocOk: bool, ghost v: View)
    returns (ok: bool, ghost home: array<char>)
    requires Shows(src, v) && Separate(stack, src) && Separate(slot, stack)
    requires Separate(batch, slot) && Separate(batch, stack)
    requires {stack.inlineBuf, slot.inlineBuf, batch.inlineBuf} !! Mems(Ptrs(src))
    modifies stack, stack.inlineBuf, slot, slot.inlineBuf, batch, batch.inlineBuf
    ensures ok <==> Total(v.texts) <= MAX_INLINE_SIZE || mallocOk
    ensures ok && Movable(v) ==>
      && Shows(batch, v)
      && Mems(Ptrs(batch)) <= {home}
      && if Total(v.texts) <= MAX_INLINE_SIZE then home == batch.inlineBuf
         else fresh(home) && home.Length == Total(v.texts)
    ensures ok && !Movable(v) ==> home == stack.inlineBuf && Mems(Ptrs(batch)) == {home}
    ensures ok ==> Homed(batch, v, home)
  {
    assert |Ptrs(src)| >= 3;
    var rc;
    rc, home := Clone(stack, src, mallocOk, v);
    if rc != 0 {
      return false, home;
    }
    home := Forward(slot, stack, v, home);
    Reuse(stack);
    home := Forward(batch, slot, v, home);
    Reuse(slot);
    PlacedMems(home, v.texts);
    if Total(v.texts) == 0 {
      PlacedNowhere(home, batch.inlineBuf, v.texts);
      home := batch.inlineBuf;
      NoTextsShow(batch, v);
    } else if Movable(v) {
      PackedShows(batch, v, home);
    }
    ok := true;
  }

  lemma MemOf(ps: seq<Ptr>, k: nat)
    requires k < |ps|
    ensures ps[k].At? ==> ps[k].mem in Mems(ps)
  {
  }

  lemma NoTextsShow(r: LogRecord, v: View)
    requires r.meta == v.meta && Scalars(r.kv) == v.scalars && |Ptrs(r)| == |v.texts|
    requires Mems(Ptrs(r)) == {} && Total(v.texts) == 0
    ensures Shows(r, v)
  {
    forall k | 0 <= k < |v.texts| ensures Ptrs(r)[k] == Null && v.texts[k] == Absent {
      MemOf(Ptrs(r), k);
      StartMonotone(v.texts, k + 1, |v.texts|);
    }
  }

  /** Without texts all pointers are NULL, wherever they would point. */
  lemma PlacedNowhere(a: array<char>, b: array<char>, ts: seq<Text>)
    requires Total(ts) == 0
    ensures Placed(a, ts) == Placed(b, ts)
  {
    forall k | 0 <= k < |ts| ensures Placed(a, ts)[k] == Null == Placed(b, ts)[k] {
      StartMonotone(ts, k + 1, |ts|);
    }
  }

  // ---- releasing ----

  /** The strings of a clone are packed from the start of `home`: its own inline buffer when it
      has a message and fits, a heap block when it does not fit. */
  ghost predicate Homed(r: LogRecord, v: View, home: array<char>)
    reads r
  {
    && |v.texts| >= 3 && Ptrs(r) == Placed(home, v.texts) && r.inlineBuf.Length == MAX_INLINE_SIZE
    && if Total(v.texts) > MAX_INLINE_SIZE then home != r.inlineBuf else v.texts[0].Present? ==> home == r.inlineBuf
  }

  /** What the clone allocated: the heap block, or nothing. */
  function Allocated(v: View, home: array<char>): Ptr
  {
    if Total(v.texts) > MAX_INLINE_SIZE then At(home, 0) else Null
  }

  /** One of message, module, tag and first key is present. */
  predicate HasLead(v: View)
  {
    exists k :: 0 <= k < 4 && k < |v.texts| && v.texts[k].Present?
  }

  /** The records whose memory is released correctly: on the heap with a leading string, or
      inline with a message or without any leading string. */
  predicate Releasable(v: View)
    requires |v.texts| >= 3
  {
    if Total(v.texts) > MAX_INLINE_SIZE then HasLead(v) else v.texts[0].Present? || !HasLead(v)
  }

  function BlockOf(r: LogRecord): Ptr
    reads r
  {
    if r.message.At? then r.message
    else if r.moduleName.At? then r.moduleName
    else if r.tag.At? then r.tag
    else if |r.kv| > 0 && r.kv[0].key.At? then r.kv[0].key
    else Null
  }

  /** The pointer that is taken for the block is its start, if there is a leading string. */
  lemma LeadIsStart(r: LogRecord, v: View, home: array<char>)
    requires |v.texts| >= 3 && Ptrs(r) == Placed(home, v.texts)
    ensures BlockOf(r) == if HasLead(v) then At(home, 0) else Null
  {
    var ps := Ptrs(r);
    assert ps[0] == r.message && ps[1] == r.moduleName && ps[2] == r.tag;
    if |r.kv| > 0 {
      assert ps[3] == KvPtrs(r.kv)[0] == r.kv[0].key;
    }
    assert Start(v.texts, 0) == 0;
    if v.texts[0].Absent? {
      assert Start(v.texts, 1) == 0;
      if v.texts[1].Absent? {
        assert Start(v.texts, 2) == 0;
        if v.texts[2].Absent? {
          assert Start(v.texts, 3) == 0;
        }
      }
    }
  }

  /** `log_record_free_owned` on a clone.  What it frees is what the clone allocated exactly for
      releasable records.  The others leak their block when it is on the heap; when they are
      inline, memory that was never allocated is freed. */
  method FreeOwned(r: LogRecord, ghost v: View, ghost home: array<char>) returns (freed: Ptr)
    requires Homed(r, v, home)
    modifies r
    ensures r.message == r.moduleName == r.tag == Null && r.kv == []
    ensures freed == Allocated(v, home) <==> Releasable(v)
    ensures !Releasable(v) ==> freed == if Total(v.texts) > MAX_INLINE_SIZE then Null else At(home, 0)
  {
    LeadIsStart(r, v, home);
    assert Ptrs(r)[0] == r.message && Start(v.texts, 0) == 0;
    freed := if IsInline(r) then Null else BlockOf(r);
    r.message, r.moduleName, r.tag, r.kv := Null, Null, Null, [];
    r.meta := r.meta.(file := "", func := "");
  }

  /** A record that is logged, dispatched by the worker and released there. */
  method DispatchAndRelease(src: LogRecord, stack: LogRecord, slot: LogRecord, batch: LogRecord, mallocOk: bool,
    ghost v: View)
    returns (ok: bool, freed: Ptr, ghost home: array<char>)
    requires Shows(src, v) && Separate(stack, src) && Separate(slot, stack)
    requires Separate(batch, slot) && Separate(batch, stack)
    requires {stack.inlineBuf, slot.inlineBuf, batch.inlineBuf} !! Mems(Ptrs(src))
    modifies stack, stack.inlineBuf, slot, slot.inlineBuf, batch, batch.inlineBuf
    ensures ok <==> Total(v.texts) <= MAX_INLINE_SIZE || mallocOk
    ensures ok ==> |v.texts| >= 3 && (freed == Allocated(v, home) <==> Releasable(v))
    ensures ok && Total(v.texts) > MAX_INLINE_SIZE ==> fresh(home) && home.Length == Total(v.texts)
    ensures ok && Total(v.texts) <= MAX_INLINE_SIZE && !Releasable(v) ==> freed == At(stack.inlineBuf, 0)
  {
    freed := Null;
    ok, home := ThroughRing(src, stack, slot, batch, mallocOk, v);
    if ok {
      assert |v.texts| >= 3;
      if Total(v.texts) <= MAX_INLINE_SIZE && !Releasable(v) {
        NotReleasableNotMovable(v);
      }
      freed := FreeOwned(batch, v, home);
    }
  }

  lemma NotReleasableNotMovable(v: View)
    requires |v.texts| >= 3 && Total(v.texts) <= MAX_INLINE_SIZE && !Releasable(v)
    ensures !Movable(v)
  {
    var k :| 0 <= k < 4 && k < |v.texts| && v.texts[k].Present?;
    StartMonotone(v.texts, k + 1, |v.texts|);
  }

  /** A clone that the queue refuses is released on the producer's stack. */
  method CloneAndRelease(src: LogRecord, stack: LogRecord, mallocOk: bool, ghost v: View)
    returns (ok: bool, freed: Ptr, ghost home: array<char>)
    requires Shows(src, v) && Separate(stack, src) && stack.inlineBuf !in Mems(Ptrs(src))
    modifies stack, stack.inlineBuf
    ensures ok <==> Total(v.texts) <= MAX_INLINE_SIZE || mallocOk
    ensures ok ==> |v.texts| >= 3 && (freed == Allocated(v, home) <==> Releasable(v))
    ensures ok && Total(v.texts) > MAX_INLINE_SIZE ==> fresh(home) && home.Length == Total(v.texts)
    ensures ok && Total(v.texts) <= MAX_INLINE_SIZE && !Releasable(v) ==> freed == At(stack.inlineBuf, 0)
  {
    assert |Ptrs(src)| >= 3;
    freed := Null;
    var rc;
    rc, home := Clone(stack, src, mallocOk, v);
    ok := rc == 0;
    if ok {
      freed := FreeOwned(stack, v, home);
    }
  }

  /** A short module and nothing else: the inline buffer is freed. */
  lemma ModuleOnlyIsNotReleasable(meta: Meta, name: string)
    requires |name| < MAX_INLINE_SIZE
    ensures var v := View(meta, [], [Absent, Present(name), Absent]);
      Total(v.texts) <= MAX_INLINE_SIZE && !Releasable(v)
  {
    var ts := [Absent, Present(name), Absent];
    assert Start(ts, 1) == Start(ts, 0) == 0;
    assert Start(ts, 2) == Start(ts, 1) + Size(ts[1]) == |name| + 1;
    assert Start(ts, 3) == Start(ts, 2) + Size(ts[2]) == |name| + 1;
    assert ts[1].Present?;
  }
}
