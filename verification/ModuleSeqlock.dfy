/** The module name: written under a mutex that brackets the bytes with two increments of a
    generation counter, read without the mutex when the generation is even and did not change.
    One step is one atomic operation, one mutex operation or one byte. */
module ModuleSeqlock {
  import opened CStrings

  const SIZE: nat := 64

  type Bytes = b: seq<char> | |b| == SIZE witness seq(SIZE, _ => NUL)

  /** What `logger_set_module_internal` stores: "main" for no name, at most 63 bytes. */
  function Stored(name: string): (v: string)
    ensures 0 < |v| < SIZE
  {
    if name == "" then "main" else if |name| < SIZE then name else name[..SIZE - 1]
  }

  datatype Pc =
    | Idle
    // logger_set_module_internal
    | WLock(v: string)
    | WMark(v: string)
    | WCopy(v: string, k: nat)
    | WUnlock
    // the reader
    | RGen
    | RCopy(g: nat, k: nat, got: seq<char>)
    | RLock
    | RLockedCopy(g: nat, k: nat, got: seq<char>)
    | RDone(got: seq<char>, first: nat, last: nat)

  /** `history[i]` is the content of the array when the generation became 2i, and `names[i]`
      the name that was stored; both are written for the statement only. */
  datatype State = State(gen: nat, mem: Bytes, owner: int, threads: seq<Pc>, history: seq<Bytes>, names: seq<string>)

  const NOBODY: int := -1

  datatype Action = SetModule(name: string) | ReadModule | Go

  /** The byte that `snprintf` stores at k. */
  function ByteOf(v: string, k: nat): char
  {
    if k < |v| then v[k] else NUL
  }

  /** One step of thread i; a step that is not possible changes nothing. */
  function Step(s: State, i: nat, a: Action): State
    requires i < |s.threads|
  {
    match s.threads[i]
    case Idle => (
      match a
      case SetModule(name) => s.(threads := s.threads[i := WLock(Stored(name))])
      case ReadModule => s.(threads := s.threads[i := RGen])
      case Go => s)
    case WLock(v) => if s.owner == NOBODY then s.(owner := i, threads := s.threads[i := WMark(v)]) else s
    case WMark(v) => s.(gen := s.gen + 1, threads := s.threads[i := WCopy(v, 0)])
    case WCopy(v, k) =>
      if k <= |v| && k < SIZE then s.(mem := s.mem[k := ByteOf(v, k)], threads := s.threads[i := WCopy(v, k + 1)])
      else s.(gen := s.gen + 1, threads := s.threads[i := WUnlock], history := s.history + [s.mem], names := s.names +
        [v])
    case WUnlock => s.(owner := NOBODY, threads := s.threads[i := Idle])
    case RGen => s.(threads := s.threads[i := if s.gen % 2 == 0 then RCopy(s.gen, 0, []) else RLock])
    case RCopy(g, k, got) =>
      if k < SIZE then s.(threads := s.threads[i := RCopy(g, k + 1, got + [s.mem[k]])])
      else s.(threads := s.threads[i := if s.gen == g then RDone(got, g, s.gen) else RLock])
    case RLock => if s.owner == NOBODY then s.(owner := i, threads := s.threads[i := RLockedCopy(s.gen, 0, [])]) else s
    case RLockedCopy(g, k, got) =>
      if k < SIZE then s.(threads := s.threads[i := RLockedCopy(g, k + 1, got + [s.mem[k]])])
      else s.(owner := NOBODY, threads := s.threads[i := RDone(got, g, s.gen)])
    case RDone(_, _, _) => s.(threads := s.threads[i := Idle])
  }

  // ---- what every step keeps ----

  predicate Holds(v: string, m: Bytes)
  {
    |v| < SIZE && m[|v|] == NUL && forall k :: 0 <= k < |v| ==> m[k] == v[k]
  }

  predicate Prefix(got: seq<char>, k: nat, m: Bytes)
  {
    k <= SIZE && |got| == k && forall j :: 0 <= j < k ==> got[j] == m[j]
  }

  predicate IsWriter(pc: Pc) { pc.WMark? || pc.WCopy? || pc.WUnlock? }

  predicate Inside(pc: Pc) { IsWriter(pc) || pc.RLockedCopy? }

  /** The shared part: an even generation has its content recorded. */
  predicate Shared(s: State)
  {
    |s.history| == |s.names| == s.gen / 2 + 1 && (s.gen % 2 == 0 ==> s.mem == s.history[s.gen / 2]) &&
    forall j :: 0 <= j < |s.history| ==> Holds(s.names[j], s.history[j])
  }

  /** The mutex: only its owner is inside, and only an owner that copies makes the generation odd. */
  predicate Locked(s: State)
  {
    (forall i :: 0 <= i < |s.threads| ==> Inside(s.threads[i]) ==> s.owner == i) &&
    (s.gen % 2 == 1 ==> 0 <= s.owner < |s.threads| && s.threads[s.owner].WCopy?) &&
    (s.owner != NOBODY ==> 0 <= s.owner < |s.threads| && Inside(s.threads[s.owner]))
  }

  /** What the program counter of a thread knows. */
  predicate Knows(pc: Pc, gen: nat, mem: Bytes, history: seq<Bytes>)
  {
    match pc
    case Idle | WUnlock | RGen | RLock => true
    case WLock(v) => 0 < |v| < SIZE
    case WMark(v) => 0 < |v| < SIZE && gen % 2 == 0
    case WCopy(v, k) =>
      0 < |v| < SIZE && gen % 2 == 1 && k <= |v| + 1 && forall j :: 0 <= j < k ==> mem[j] == ByteOf(v, j)
    case RCopy(g, k, got) =>
      g % 2 == 0 && g <= gen && g / 2 < |history| && k <= SIZE && |got| == k && (g == gen ==>
        Prefix(got, k, history[g / 2]))
    case RLockedCopy(g, k, got) => g == gen && g % 2 == 0 && g / 2 < |history| && Prefix(got, k, history[g / 2])
    case RDone(got, first, last) =>
      first == last <= gen && first % 2 == 0 && first / 2 < |history| && got == history[first / 2]
  }

  predicate AllKnow(s: State)
  {
    forall i :: 0 <= i < |s.threads| ==> Knows(s.threads[i], s.gen, s.mem, s.history)
  }

  predicate Inv(s: State)
  {
    Shared(s) && Locked(s) && AllKnow(s)
  }

  // ---- preservation ----

  /** A thread that does not move keeps what it knows, whatever the writer does. */
  lemma OthersKnow(s: State, i: nat, a: Action, j: nat)
    requires Inv(s) && i < |s.threads| && j < |s.threads| && i != j
    ensures Step(s, i, a).threads[j] == s.threads[j]
    ensures var t := Step(s, i, a); Knows(t.threads[j], t.gen, t.mem, t.history)
  {
    assert Knows(s.threads[j], s.gen, s.mem, s.history);
    assert Knows(s.threads[i], s.gen, s.mem, s.history);
    assert Inside(s.threads[i]) ==> s.owner == i;
    assert Inside(s.threads[j]) ==> s.owner == j;
  }

  predicate IsReader(pc: Pc) { pc.RGen? || pc.RCopy? || pc.RLock? || pc.RLockedCopy? || pc.RDone? }

  lemma ReaderKnows(s: State, i: nat, a: Action)
    requires Inv(s) && i < |s.threads| && IsReader(s.threads[i])
    ensures var t := Step(s, i, a); Knows(t.threads[i], t.gen, t.mem, t.history)
  {
    var pc := s.threads[i];
    assert Knows(pc, s.gen, s.mem, s.history);
    if (pc.RCopy? && pc.k == SIZE && s.gen == pc.g) || (pc.RLockedCopy? && pc.k == SIZE) {
      assert pc.got == s.history[s.gen / 2];
    }
  }

  lemma WriterKnows(s: State, i: nat, a: Action)
    requires Inv(s) && i < |s.threads| && !IsReader(s.threads[i])
    ensures var t := Step(s, i, a); Knows(t.threads[i], t.gen, t.mem, t.history)
  {
    assert Knows(s.threads[i], s.gen, s.mem, s.history);
  }

  lemma StepKeepsShared(s: State, i: nat, a: Action)
    requires Inv(s) && i < |s.threads|
    ensures Shared(Step(s, i, a))
  {
    var pc := s.threads[i];
    assert Knows(pc, s.gen, s.mem, s.history);
    assert Inside(pc) ==> s.owner == i;
    if pc.WCopy? && !(pc.k <= |pc.v| && pc.k < SIZE) {
      assert Holds(pc.v, s.mem);
    }
  }

  lemma StepKeepsLocked(s: State, i: nat, a: Action)
    requires Inv(s) && i < |s.threads|
    ensures Locked(Step(s, i, a))
  {
    assert Knows(s.threads[i], s.gen, s.mem, s.history);
  }

  lemma StepKeepsInv(s: State, i: nat, a: Action)
    requires Inv(s) && i < |s.threads|
    ensures Inv(Step(s, i, a)) && |Step(s, i, a).threads| == |s.threads|
  {
    var t := Step(s, i, a);
    StepKeepsShared(s, i, a);
    StepKeepsLocked(s, i, a);
    forall j | 0 <= j < |t.threads| ensures Knows(t.threads[j], t.gen, t.mem, t.history) {
      if j == i {
        if IsReader(s.threads[i]) { ReaderKnows(s, i, a); } else { WriterKnows(s, i, a); }
      } else {
        OthersKnow(s, i, a, j);
      }
    }
  }

  // ---- runs ----

  datatype Move = Move(thread: nat, action: Action)

  predicate Initial(s: State)
  {
    s.gen == 0 && s.owner == NOBODY && s.history == [s.mem] && |s.names| == 1 && Holds(s.names[0], s.mem) &&
    forall i :: 0 <= i < |s.threads| ==> s.threads[i] == Idle
  }

  function After(s: State, moves: seq<Move>, n: nat): State
    requires n <= |moves|
  {
    if n == 0 then s
    else
      var t := After(s, moves, n - 1);
      if moves[n - 1].thread < |t.threads| then Step(t, moves[n - 1].thread, moves[n - 1].action) else t
  }

  lemma {:induction false} RunKeepsInv(s: State, moves: seq<Move>, n: nat)
    requires Initial(s) && n <= |moves|
    ensures Inv(After(s, moves, n))
  {
    if n == 0 {
    } else {
      RunKeepsInv(s, moves, n - 1);
      var t := After(s, moves, n - 1);
      if moves[n - 1].thread < |t.threads| {
        StepKeepsInv(t, moves[n - 1].thread, moves[n - 1].action);
      }
    }
  }

  /** In every run, a finished read holds all 64 bytes of the one content that was current from
      its first to its last look at the generation, and their C string is a stored name. */
  lemma ReadIsOneValue(s: State, moves: seq<Move>, n: nat, i: nat)
    requires Initial(s) && n <= |moves| && i < |After(s, moves, n).threads| && After(s, moves, n).threads[i].RDone?
    ensures var t := After(s, moves, n); var pc := t.threads[i];
      pc.first == pc.last && pc.first % 2 == 0 && pc.first / 2 < |t.history| == |t.names| &&
      pc.got == t.history[pc.first / 2] && Holds(t.names[pc.first / 2], t.history[pc.first / 2])
  {
    RunKeepsInv(s, moves, n);
    var t := After(s, moves, n);
    assert Knows(t.threads[i], t.gen, t.mem, t.history);
  }

  lemma StepIsMonotone(s: State, i: nat, a: Action)
    requires Inv(s) && i < |s.threads|
    ensures s.gen <= Step(s, i, a).gen && s.history <= Step(s, i, a).history
    ensures s.gen == Step(s, i, a).gen && s.gen % 2 == 0 ==> Step(s, i, a).mem == s.mem
  {
    assert Knows(s.threads[i], s.gen, s.mem, s.history);
  }

  /** The generation never goes back, and nothing changes while it is even and stays. */
  lemma {:induction false} QuietMeansUnchanged(s: State, moves: seq<Move>, m: nat, n: nat)
    requires Initial(s) && m <= n <= |moves|
    ensures After(s, moves, m).gen <= After(s, moves, n).gen
    ensures After(s, moves, m).history <= After(s, moves, n).history
    ensures After(s, moves, m).gen == After(s, moves, n).gen && After(s, moves, m).gen % 2 == 0 ==>
      After(s, moves, m).mem == After(s, moves, n).mem
    decreases n
  {
    if m == n {
    } else {
      QuietMeansUnchanged(s, moves, m, n - 1);
      RunKeepsInv(s, moves, n - 1);
      var t := After(s, moves, n - 1);
      if moves[n - 1].thread < |t.threads| {
        StepIsMonotone(t, moves[n - 1].thread, moves[n - 1].action);
      }
    }
  }

  // ---- which names are stored ----

  /** The text that `log_set_module(name)` is to store. */
  predicate IsNameOf(v: string, name: string)
  {
    if name == "" then v == "main" else v <= name && |v| == if |name| <= 63 then |name| else 63
  }

  /** Some of the first n moves sets a name with this text. */
  ghost predicate WasSet(moves: seq<Move>, n: nat, v: string)
    requires n <= |moves|
  {
    exists m :: 0 <= m < n && moves[m].action.SetModule? && IsNameOf(v, moves[m].action.name)
  }

  predicate Writing(pc: Pc) { pc.WLock? || pc.WMark? || pc.WCopy? }

  /** Every name after the first one, and every name on its way, was set. */
  ghost predicate OnlySet(t: State, moves: seq<Move>, n: nat)
    requires n <= |moves|
  {
    (forall i :: 0 <= i < |t.threads| && Writing(t.threads[i]) ==> WasSet(moves, n, t.threads[i].v)) &&
    forall j :: 1 <= j < |t.names| ==> WasSet(moves, n, t.names[j])
  }

  lemma SetIsStored(moves: seq<Move>, n: nat)
    requires n < |moves| && moves[n].action.SetModule?
    ensures WasSet(moves, n + 1, Stored(moves[n].action.name))
  {
    assert IsNameOf(Stored(moves[n].action.name), moves[n].action.name);
  }

  /** What a step does to names. */
  lemma StepNames(t: State, i: nat, a: Action)
    requires i < |t.threads|
    ensures var u := Step(t, i, a);
      && u.threads == t.threads[i := u.threads[i]]
      && (u.names == t.names || (Writing(t.threads[i]) && u.names == t.names + [t.threads[i].v]))
      && (Writing(u.threads[i]) ==>
            (Writing(t.threads[i]) && u.threads[i].v == t.threads[i].v) ||
            (a.SetModule? && u.threads[i].v == Stored(a.name)))
  {
  }

  lemma StepKeepsOnlySet(t: State, moves: seq<Move>, n: nat)
    requires n < |moves| && moves[n].thread < |t.threads| && OnlySet(t, moves, n)
    ensures OnlySet(Step(t, moves[n].thread, moves[n].action), moves, n + 1)
    ensures t.names <= Step(t, moves[n].thread, moves[n].action).names
  {
    var i, a := moves[n].thread, moves[n].action;
    StepNames(t, i, a);
    SetLater(t, moves, n);
    if a.SetModule? {
      SetIsStored(moves, n);
    }
  }

  /** In every run each stored name is that of a call: "main" for an empty name, and otherwise the
      first 63 bytes of the name. */
  lemma {:induction false} NamesWereSet(s: State, moves: seq<Move>, n: nat)
    requires Initial(s) && n <= |moves|
    ensures OnlySet(After(s, moves, n), moves, n) && s.names <= After(s, moves, n).names
  {
    if n == 0 {
    } else {
      NamesWereSet(s, moves, n - 1);
      var t := After(s, moves, n - 1);
      if moves[n - 1].thread < |t.threads| {
        StepKeepsOnlySet(t, moves, n - 1);
      } else {
        SetLater(t, moves, n - 1);
      }
    }
  }

  lemma SetLater(t: State, moves: seq<Move>, n: nat)
    requires n < |moves| && OnlySet(t, moves, n)
    ensures OnlySet(t, moves, n + 1)
  {
    assert forall v :: WasSet(moves, n, v) ==> WasSet(moves, n + 1, v);
  }

  // ---- threads on their own ----

  /** Thread i makes n steps. */
  function Alone(s: State, i: nat, n: nat): (t: State)
    requires i < |s.threads|
    ensures |t.threads| == |s.threads|
    decreases n
  {
    if n == 0 then s else Alone(Step(s, i, Go), i, n - 1)
  }

  /** Steps a thread has ahead of it at most, once the mutex is free for it. */
  function Left(pc: Pc): nat
  {
    match pc
    case Idle => 0
    case WUnlock => 1
    case WCopy(v, k) => if k <= |v| && k < SIZE then 2 + (|v| + 1 - k) else 2
    case WMark(v) => |v| + 4
    case WLock(v) => |v| + 5
    case RDone(_, _, _) => 1
    case RLockedCopy(_, k, _) => if k < SIZE then 2 + (SIZE - k) else 2
    case RLock => SIZE + 3
    case RCopy(_, k, _) => if k < SIZE then SIZE + 4 + (SIZE - k) else SIZE + 4
    case RGen => 2 * SIZE + 5
  }

  predicate Blocked(s: State, i: nat)
    requires i < |s.threads|
  {
    (s.threads[i].WLock? || s.threads[i].RLock?) && s.owner != NOBODY
  }

  lemma StepGoesOn(s: State, i: nat)
    requires i < |s.threads| && s.threads[i] != Idle && !Blocked(s, i)
    ensures Left(Step(s, i, Go).threads[i]) < Left(s.threads[i])
    ensures Step(s, i, Go).threads == s.threads[i := Step(s, i, Go).threads[i]]
  {
  }

  lemma WriterStep(s: State, i: nat, v: string)
    requires Inv(s) && i < |s.threads| && !Blocked(s, i)
    requires Writing(s.threads[i]) && s.threads[i].v == v
    ensures var t := Step(s, i, Go);
      if Writing(t.threads[i]) then t.threads[i].v == v && t.names == s.names && !t.threads[i].WLock?
      else t.threads[i] == WUnlock && t.names == s.names + [v]
  {
    assert Knows(s.threads[i], s.gen, s.mem, s.history);
  }

  /** A writer on its own stores its name and is done. */
  lemma {:induction false} WriterFinishes(s: State, i: nat, v: string) returns (n: nat)
    requires Inv(s) && i < |s.threads| && !Blocked(s, i)
    requires Writing(s.threads[i]) && s.threads[i].v == v
    ensures var t := Alone(s, i, n);
      Inv(t) && t.threads == s.threads[i := Idle] && t.names == s.names + [v] && t.owner == NOBODY
    decreases Left(s.threads[i])
  {
    var t := Step(s, i, Go);
    StepKeepsInv(s, i, Go);
    StepGoesOn(s, i);
    WriterStep(s, i, v);
    if Writing(t.threads[i]) {
      var m := WriterFinishes(t, i, v);
      n := m + 1;
    } else {
      n := 2;
      StepKeepsInv(t, i, Go);
      assert Alone(s, i, 2) == Alone(t, i, 1) == Step(t, i, Go);
    }
  }

  /** Nobody holds the mutex: the bytes are those of the last name. */
  lemma QuietHolds(s: State)
    requires Inv(s) && s.owner == NOBODY
    ensures s.gen % 2 == 0 && |s.names| > 0 && Holds(s.names[|s.names| - 1], s.mem)
  {
  }

  /** `log_set_module` on its own, with the mutex free, leaves the text of its name and a NUL. */
  lemma SetModuleStores(s: State, i: nat, name: string) returns (n: nat, v: string)
    requires Inv(s) && i < |s.threads| && s.threads[i] == Idle && s.owner == NOBODY
    ensures var t := Alone(Step(s, i, SetModule(name)), i, n);
      Inv(t) && t.threads == s.threads && t.owner == NOBODY && IsNameOf(v, name) && Holds(v, t.mem)
  {
    v := Stored(name);
    var u := Step(s, i, SetModule(name));
    StepKeepsInv(s, i, SetModule(name));
    n := WriterFinishes(u, i, v);
    var t := Alone(u, i, n);
    QuietHolds(t);
    assert t.threads == s.threads;
  }

  /** The reader has copied what is current. */
  predicate ReadsNow(s: State, pc: Pc) { pc.RGen? || (pc.RCopy? && pc.g == s.gen) }

  /** A reader on its own, with no writer inside, returns the bytes that are there. */
  lemma {:induction false} ReaderFinishes(s: State, i: nat) returns (n: nat)
    requires Inv(s) && i < |s.threads| && s.gen % 2 == 0 && ReadsNow(s, s.threads[i])
    ensures var t := Alone(s, i, n); t.threads[i].RDone? && t.threads[i].got == s.mem && t.mem == s.mem
    decreases Left(s.threads[i])
  {
    var t := Step(s, i, Go);
    StepKeepsInv(s, i, Go);
    StepGoesOn(s, i);
    assert Knows(t.threads[i], t.gen, t.mem, t.history);
    if t.threads[i].RDone? {
      n := 1;
      assert Alone(s, i, 1) == Alone(t, i, 0) == t;
    } else {
      var m := ReaderFinishes(t, i);
      n := m + 1;
    }
  }

  /** What was set is read: a name set by one thread and then read by another, or the same. */
  lemma SetIsRead(s: State, i: nat, name: string, j: nat) returns (n: nat, m: nat, v: string)
    requires Inv(s) && i < |s.threads| && j < |s.threads| && s.threads[i] == s.threads[j] == Idle && s.owner == NOBODY
    ensures var t := Alone(Step(s, i, SetModule(name)), i, n);
      var u := Alone(Step(t, j, ReadModule), j, m);
      u.threads[j].RDone? && IsNameOf(v, name) && |u.threads[j].got| == SIZE && Holds(v, u.threads[j].got)
  {
    n, v := SetModuleStores(s, i, name);
    var t := Alone(Step(s, i, SetModule(name)), i, n);
    QuietHolds(t);
    StepKeepsInv(t, j, ReadModule);
    m := ReaderFinishes(Step(t, j, ReadModule), j);
  }

  /** In every run, a read whose generation is still the current one holds the current bytes. */
  lemma ReadIsCurrent(s: State, moves: seq<Move>, n: nat, i: nat)
    requires Initial(s) && n <= |moves| && i < |After(s, moves, n).threads| && After(s, moves, n).threads[i].RDone?
    ensures var t := After(s, moves, n); t.threads[i].first == t.gen ==> t.threads[i].got == t.mem
  {
    RunKeepsInv(s, moves, n);
    var t := After(s, moves, n);
    assert Knows(t.threads[i], t.gen, t.mem, t.history);
  }

  // ---- everybody returns ----

  function AllLeft(ts: seq<Pc>, n: nat): nat
    requires n <= |ts|
  {
    if n == 0 then 0 else AllLeft(ts, n - 1) + Left(ts[n - 1])
  }

  lemma {:induction false} AllLeftUpdate(ts: seq<Pc>, i: nat, pc: Pc, n: nat)
    requires i < |ts| && n <= |ts|
    ensures AllLeft(ts[i := pc], n) == AllLeft(ts, n) + if i < n then Left(pc) - Left(ts[i]) else 0
  {
    if n == 0 {
    } else {
      AllLeftUpdate(ts, i, pc, n - 1);
    }
  }

  /** A thread that can move: the owner of the mutex, or anyone when there is none. */
  lemma SomeoneCanMove(s: State) returns (i: nat)
    requires Inv(s) && exists j :: 0 <= j < |s.threads| && s.threads[j] != Idle
    ensures i < |s.threads| && s.threads[i] != Idle && !Blocked(s, i)
  {
    if s.owner != NOBODY {
      i := s.owner;
    } else {
      i :| 0 <= i < |s.threads| && s.threads[i] != Idle;
    }
  }

  /** The state after single steps of these threads. */
  function Steps(s: State, who: seq<nat>): (t: State)
    ensures |t.threads| == |s.threads|
    decreases |who|
  {
    if who == [] then s
    else if who[0] < |s.threads| then Steps(Step(s, who[0], Go), who[1..])
    else Steps(s, who[1..])
  }

  lemma {:induction false} AllReturn(s: State) returns (who: seq<nat>)
    requires Inv(s)
    ensures var t := Steps(s, who);
      Inv(t) && t.owner == NOBODY && forall i :: 0 <= i < |t.threads| ==> t.threads[i] == Idle
    decreases AllLeft(s.threads, |s.threads|)
  {
    if forall i :: 0 <= i < |s.threads| ==> s.threads[i] == Idle {
      who := [];
    } else {
      var i := SomeoneCanMove(s);
      var t := Step(s, i, Go);
      StepKeepsInv(s, i, Go);
      StepGoesOn(s, i);
      AllLeftUpdate(s.threads, i, t.threads[i], |s.threads|);
      var rest := AllReturn(t);
      who := [i] + rest;
      assert who[1..] == rest;
    }
  }

  /** From every reachable state all readers and writers can finish, and then the array holds the
      last name that was stored. */
  lemma CanAlwaysReturn(s: State, moves: seq<Move>, n: nat) returns (who: seq<nat>)
    requires Initial(s) && n <= |moves|
    ensures var t := Steps(After(s, moves, n), who);
      (forall i :: 0 <= i < |t.threads| ==> t.threads[i] == Idle) && t.owner == NOBODY &&
      |t.names| > 0 && Holds(t.names[|t.names| - 1], t.mem)
  {
    RunKeepsInv(s, moves, n);
    who := AllReturn(After(s, moves, n));
    QuietHolds(Steps(After(s, moves, n), who));
  }
}
