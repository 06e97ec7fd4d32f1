/** The asynchronous log pipeline as a transition system.

    Any number of writers run `log_async_write_for` (clone, `mpsc_queue_try_put`,
    fallback dispatch), one worker runs `async_worker_for` (`mpsc_queue_wait_for_items`,
    `mpsc_queue_get_batch_try`, dispatch), one flusher runs `log_async_flush_for` and one
    closer runs `mpsc_queue_close`.  One transition is one atomic load, store, fetch_add,
    compare-and-swap, sem_wait or sem_post; copying a record into a slot is two transitions
    (started, finished), so that a half-written slot is a state of its own.

    Atomics are sequentially consistent, the compare-and-swap does not fail spuriously, and
    positions are natural numbers.  A record is named by the call that logged it. */
module AsyncPipeline {

  const BATCH_SIZE: nat := 64
  const MAX_STALLS: nat := 1000000
  /** Number of values of `size_t`; differences of positions are taken modulo it. */
  const SIZE_VALUES: nat := 0x1_0000_0000_0000_0000

  /** What the record field of a slot holds. */
  datatype Cell =
    | Junk                 // never written
    | Torn(writer: nat)    // a copy into the slot has started and not finished
    | Record(call: nat)
    | Tombstone

  datatype Slot = Slot(seqno: nat, rec: Cell)

  /** What became of a claimed position. */
  datatype Status = Pending | Published | Tombstoned | Abandoned

  datatype Claim = Claim(call: nat, writer: nat, status: Status)

  /** Where the record of a call is. */
  datatype Fate = InFlight(writer: nat) | Queued(pos: nat) | Direct(index: nat)

  /** The next action of a writer. */
  datatype WriterPc =
    | Idle
    | CheckClosed(call: nat)
    | LoadTail(call: nat)
    | LoadHead(call: nat, tailSnap: nat)
    | FetchAdd(call: nat)
    | Recheck(call: nat, pos: nat)
    | WaitTail(call: nat, pos: nat, lastTail: nat, stalls: nat)
    | BeginCopy(call: nat, pos: nat, tomb: bool)
    | EndCopy(call: nat, pos: nat, tomb: bool)
    | Publish(call: nat, pos: nat, tomb: bool)
    | Signal(call: nat, pos: nat, tomb: bool)
    | Post(call: nat, pos: nat, tomb: bool)
    | Fallback(call: nat)

  /** The next action of the worker. */
  datatype WorkerPc =
    | LoadHead1
    | LoadTail1(head: nat)
    | CheckClosed1(head: nat)
    | Park
    | LoadHead2
    | LoadTail2(head: nat)
    | CheckClosed2(head: nat)
    | SemWait(head: nat)
    | UnparkLoop
    | UnparkReturn(head: nat, ok: bool)
    | RaiseFlag
    | BatchHead
    | BatchTail(head: nat)
    | LoadSeq(available: nat, tail: nat, batch: seq<Cell>)
    | CopyOut(available: nat, tail: nat, batch: seq<Cell>)
    | Advance(tail: nat, batch: seq<Cell>)
    | Dispatch(batch: seq<Cell>, next: nat)
    | ClearFlag
    | Exited(head: nat)

  /** The next action of the flusher; `need` is the set of calls that had returned
      CLOG_OK when the flush began. */
  datatype FlusherPc =
    | NoFlush
    | FlushHead(need: set<nat>)
    | FlushTail(need: set<nat>, head: nat)
    | FlushFlag(need: set<nat>)
    | Flushed(need: set<nat>)

  datatype CloserPc = Open | PostClose | CloseDone

  /** `mpsc_queue_t` and the worker's `async_processing` flag. */
  datatype Queue = Queue(
    cap: nat, head: nat, tail: nat, closed: bool, parked: bool, items: nat,
    slots: seq<Slot>, processing: bool)
  {
    predicate Valid() { cap > 0 && |slots| == cap }

    /** The slot of a position: `pos & mask`, see RingIndex.MaskIsModulo. */
    function Index(pos: nat): (k: nat)
      requires Valid()
      ensures k < |slots|
    {
      pos % cap
    }

    function SetRec(pos: nat, cell: Cell): (q: Queue)
      requires Valid()
    {
      var k := Index(pos);
      this.(slots := slots[k := slots[k].(rec := cell)])
    }

    function SetSeq(pos: nat, seqno: nat): (q: Queue)
      requires Valid()
    {
      var k := Index(pos);
      this.(slots := slots[k := slots[k].(seqno := seqno)])
    }
  }

  /** What has happened so far.  `claims` lists every position handed out by fetch_add,
      `fates` says where the record of each call is, `direct` lists the records dispatched
      by their own caller, `accepted` the calls that returned CLOG_OK, and `delivered` what
      the worker handed to the dispatcher.  No step depends on the history. */
  datatype History = History(
    claims: seq<Claim>, fates: seq<Fate>, direct: seq<nat>, accepted: set<nat>, delivered: seq<Cell>)
  {
    function Resolve(pos: nat, status: Status): History
    {
      if pos < |claims| then this.(claims := claims[pos := claims[pos].(status := status)]) else this
    }

    function Settle(call: nat, fate: Fate): History
    {
      if call < |fates| then this.(fates := fates[call := fate]) else this
    }
  }

  datatype State = State(
    q: Queue, h: History,
    writers: seq<WriterPc>, worker: WorkerPc, flusher: FlusherPc, closer: CloserPc)

  /** `mpsc_queue_create` with the given (already rounded) capacity, before any call. */
  function Init(cap: nat, writers: nat): State
  {
    State(Queue(cap, 0, 0, false, false, 0, seq(cap, (i: nat) => Slot(i, Junk)), false),
          History([], [], [], {}, []),
          seq(writers, _ => Idle), LoadHead1, NoFlush, Open)
  }

  /** `a - b` on `size_t`. */
  function Diff(a: nat, b: nat): nat
  {
    if b <= a then a - b else SIZE_VALUES - (b - a) % SIZE_VALUES
  }

  function CellOf(call: nat, tomb: bool): Cell
  {
    if tomb then Tombstone else Record(call)
  }

  /** What one step of a writer leaves: the queue, the history and the writer's next action. */
  datatype WriterTo = WriterTo(q: Queue, h: History, pc: WriterPc)

  /** Entering `log_async_write_for`; a failed clone goes straight to the fallback. */
  function Enter(q: Queue, h: History, i: nat, cloned: bool): WriterTo
  {
    var c := |h.fates|;
    WriterTo(q, h.(fates := h.fates + [InFlight(i)]), if cloned then CheckClosed(c) else Fallback(c))
  }

  /** One step of writer i inside `mpsc_queue_try_put`, or its fallback dispatch. */
  function WriterStep(q: Queue, h: History, i: nat, pc: WriterPc): (r: WriterTo)
    requires q.Valid()
    ensures r.q.Valid() && r.q.cap == q.cap
  {
    match pc
    case Idle => WriterTo(q, h, pc)
    case CheckClosed(c) => WriterTo(q, h, if q.closed then Fallback(c) else LoadTail(c))
    case LoadTail(c) => WriterTo(q, h, LoadHead(c, q.tail))
    case LoadHead(c, t) => WriterTo(q, h, if Diff(q.head, t) >= q.cap then Fallback(c) else FetchAdd(c))
    case FetchAdd(c) =>
      WriterTo(q.(head := q.head + 1), h.(claims := h.claims + [Claim(c, i, Pending)]), Recheck(c, q.head))
    case Recheck(c, p) =>
      WriterTo(q, h, if Diff(p, q.tail) < q.cap then BeginCopy(c, p, false)
                     else if p >= q.cap then WaitTail(c, p, q.tail, 0)
                     else BeginCopy(c, p, true))
    case WaitTail(c, p, last, stalls) =>
      if q.tail > p - q.cap then WriterTo(q, h, BeginCopy(c, p, true))
      else if q.tail != last then WriterTo(q, h, WaitTail(c, p, q.tail, 0))
      else if stalls + 1 > MAX_STALLS then WriterTo(q, h.Resolve(p, Abandoned), Fallback(c))
      else WriterTo(q, h, WaitTail(c, p, last, stalls + 1))
    case BeginCopy(c, p, tomb) => WriterTo(q.SetRec(p, Torn(i)), h, EndCopy(c, p, tomb))
    case EndCopy(c, p, tomb) => WriterTo(q.SetRec(p, CellOf(c, tomb)), h, Publish(c, p, tomb))
    case Publish(c, p, tomb) =>
      WriterTo(q.SetSeq(p, p + 1),
               if tomb then h.Resolve(p, Tombstoned) else h.Resolve(p, Published).Settle(c, Queued(p)),
               Signal(c, p, tomb))
    case Signal(c, p, tomb) =>
      if q.parked then WriterTo(q.(parked := false), h, Post(c, p, tomb)) else Return(q, h, c, tomb)
    case Post(c, p, tomb) => Return(q.(items := q.items + 1), h, c, tomb)
    case Fallback(c) =>
      WriterTo(q, h.Settle(c, Direct(|h.direct|)).(direct := h.direct + [c]), Idle)
  }

  /** try_put returns: -1 after a tombstone, otherwise 0. */
  function Return(q: Queue, h: History, c: nat, tomb: bool): WriterTo
  {
    if tomb then WriterTo(q, h, Fallback(c)) else WriterTo(q, h.(accepted := h.accepted + {c}), Idle)
  }

  datatype WorkerTo = WorkerTo(q: Queue, delivered: seq<Cell>, pc: WorkerPc)

  /** One step of the worker thread. */
  function WorkerStep(q: Queue, d: seq<Cell>, pc: WorkerPc): (r: WorkerTo)
    requires q.Valid()
    ensures r.q.Valid() && r.q.cap == q.cap
  {
    match pc
    case LoadHead1 => WorkerTo(q, d, LoadTail1(q.head))
    case LoadTail1(h) => WorkerTo(q, d, if Diff(h, q.tail) > 0 then RaiseFlag else CheckClosed1(h))
    case CheckClosed1(h) => WorkerTo(q, d, if q.closed then Exited(h) else Park)
    case Park => WorkerTo(q.(parked := true), d, LoadHead2)
    case LoadHead2 => WorkerTo(q, d, LoadTail2(q.head))
    case LoadTail2(h) => WorkerTo(q, d, if Diff(h, q.tail) > 0 then UnparkReturn(h, true) else CheckClosed2(h))
    case CheckClosed2(h) => WorkerTo(q, d, if q.closed then UnparkReturn(h, false) else SemWait(h))
    case SemWait(h) => if q.items == 0 then WorkerTo(q, d, pc) else WorkerTo(q.(items := q.items - 1), d, UnparkLoop)
    case UnparkLoop => WorkerTo(q.(parked := false), d, LoadHead1)
    case UnparkReturn(h, ok) => WorkerTo(q.(parked := false), d, if ok then RaiseFlag else Exited(h))
    case RaiseFlag => WorkerTo(q.(processing := true), d, BatchHead)
    case BatchHead => WorkerTo(q, d, BatchTail(q.head))
    case BatchTail(h) =>
      WorkerTo(q, d, if Diff(h, q.tail) == 0 then ClearFlag else LoadSeq(Diff(h, q.tail), q.tail, []))
    case LoadSeq(available, t, batch) =>
      var n := |batch|;
      if n < available && n < BATCH_SIZE && q.slots[q.Index(t + n)].seqno == t + n + 1
      then WorkerTo(q, d, CopyOut(available, t, batch))
      else WorkerTo(q, d, if n == 0 then ClearFlag else Advance(t, batch))
    case CopyOut(available, t, batch) =>
      WorkerTo(q, d, LoadSeq(available, t, batch + [q.slots[q.Index(t + |batch|)].rec]))
    case Advance(t, batch) => WorkerTo(q.(tail := t + |batch|), d, Dispatch(batch, 0))
    case Dispatch(batch, k) =>
      if k >= |batch| then WorkerTo(q, d, ClearFlag)
      else WorkerTo(q, if batch[k].Tombstone? then d else d + [batch[k]], Dispatch(batch, k + 1))
    case ClearFlag => WorkerTo(q.(processing := false), d, LoadHead1)
    case Exited(_) => WorkerTo(q, d, pc)
  }

  /** One step of `log_async_flush_for`; a failed emptiness test waits and tests again. */
  function FlusherStep(q: Queue, pc: FlusherPc): FlusherPc
  {
    match pc
    case NoFlush => pc
    case FlushHead(need) => FlushTail(need, q.head)
    case FlushTail(need, h) => if h == q.tail then FlushFlag(need) else FlushHead(need)
    case FlushFlag(need) => if q.processing then pc else Flushed(need)
    case Flushed(_) => pc
  }

  datatype Action =
    | StartCall(writer: nat, cloned: bool)
    | StepWriter(writer: nat)
    | StepWorker
    | StartFlush
    | StepFlusher
    | StepCloser

  /** The effect of one scheduled action; an action that is not enabled changes nothing.
      The closer (`mpsc_queue_close`) sets the flag, then posts once for the worker. */
  function Step(s: State, a: Action): (r: State)
    requires s.q.Valid()
    ensures r.q.Valid() && r.q.cap == s.q.cap && |r.writers| == |s.writers|
  {
    match a
    case StartCall(i, cloned) =>
      if i < |s.writers| && s.writers[i].Idle? then Moved(s, i, Enter(s.q, s.h, i, cloned)) else s
    case StepWriter(i) =>
      if i < |s.writers| then Moved(s, i, WriterStep(s.q, s.h, i, s.writers[i])) else s
    case StepWorker =>
      var w := WorkerStep(s.q, s.h.delivered, s.worker);
      s.(q := w.q, h := s.h.(delivered := w.delivered), worker := w.pc)
    case StartFlush =>
      if s.flusher.NoFlush? || s.flusher.Flushed? then s.(flusher := FlushHead(s.h.accepted)) else s
    case StepFlusher => s.(flusher := FlusherStep(s.q, s.flusher))
    case StepCloser =>
      match s.closer
      case Open => s.(q := s.q.(closed := true), closer := PostClose)
      case PostClose => s.(q := s.q.(items := s.q.items + 1), closer := CloseDone)
      case CloseDone => s
  }

  function Moved(s: State, i: nat, w: WriterTo): State
    requires i < |s.writers|
  {
    s.(q := w.q, h := w.h, writers := s.writers[i := w.pc])
  }

  /** The state a schedule leads to. */
  function Run(s: State, schedule: seq<Action>): (r: State)
    requires s.q.Valid()
    ensures r.q.Valid() && r.q.cap == s.q.cap && |r.writers| == |s.writers|
    decreases |schedule|
  {
    if schedule == [] then s else Run(Step(s, schedule[0]), schedule[1..])
  }
}
