/** What every state of the asynchronous pipeline satisfies. */
module PipelineInvariant {
  import opened AsyncPipeline

  /** The claim has been published, as a record or as a tombstone. */
  predicate Done(c: Claim)
  {
    c.status.Published? || c.status.Tombstoned?
  }

  function CellFor(c: Claim): Cell
  {
    CellOf(c.call, !c.status.Published?)
  }

  /** The records published in a sequence of claims, in claim order. */
  function Skim(cs: seq<Claim>): seq<Cell>
  {
    if cs == [] then []
    else
      var last := cs[|cs| - 1];
      Skim(cs[..|cs| - 1]) + if last.status.Published? then [Record(last.call)] else []
  }

  /** Everything below `tail` has been published; nothing above `head` is claimed. */
  ghost predicate ClaimsOk(q: Queue, h: History)
  {
    && |h.claims| == q.head
    && q.tail <= q.head
    && (forall p :: 0 <= p < q.tail ==> Done(h.claims[p]))
  }

  /** The sequence number of slot k is its initial value, or names the last position
      published there. */
  ghost predicate SeqOk(q: Queue, h: History, k: nat)
    requires q.Valid() && k < q.cap
  {
    var n := q.slots[k].seqno;
    n == k || (1 <= n <= |h.claims| && q.Index(n - 1) == k && Done(h.claims[n - 1]))
  }

  /** A position that is published and not consumed is in its slot, complete. */
  ghost predicate SlotsOk(q: Queue, h: History)
  {
    && q.Valid()
    && (forall p :: q.tail <= p < |h.claims| && Done(h.claims[p]) ==>
          p < q.tail + q.cap && q.slots[q.Index(p)] == Slot(p + 1, CellFor(h.claims[p])))
    && (forall k :: 0 <= k < q.cap ==> SeqOk(q, h, k))
  }

  /** Writer i claimed position p for call c and has not published it. */
  ghost predicate Owns(q: Queue, h: History, i: nat, c: nat, p: nat)
  {
    p < |h.claims| && h.claims[p] == Claim(c, i, Pending)
  }

  /** ... and the position's slot is free for it. */
  ghost predicate MayWrite(q: Queue, h: History, i: nat, c: nat, p: nat)
  {
    Owns(q, h, i, c, p) && p < q.tail + q.cap
  }

  ghost predicate WriterOk(q: Queue, h: History, i: nat, pc: WriterPc)
    requires q.Valid()
  {
    match pc
    case LoadHead(c, t) => t <= q.tail
    case Recheck(c, p) => Owns(q, h, i, c, p)
    case WaitTail(c, p, _, _) => Owns(q, h, i, c, p) && p >= q.cap
    case BeginCopy(c, p, _) => MayWrite(q, h, i, c, p)
    case EndCopy(c, p, _) => MayWrite(q, h, i, c, p) && q.slots[q.Index(p)].rec == Torn(i)
    case Publish(c, p, tomb) => MayWrite(q, h, i, c, p) && q.slots[q.Index(p)].rec == CellOf(c, tomb)
    case Signal(c, p, tomb) =>
      p < |h.claims| && h.claims[p] == Claim(c, i, if tomb then Tombstoned else Published)
    case Post(c, p, tomb) =>
      p < |h.claims| && h.claims[p] == Claim(c, i, if tomb then Tombstoned else Published)
    case _ => true
  }

  ghost predicate WritersOk(q: Queue, h: History, ws: seq<WriterPc>)
    requires q.Valid()
  {
    forall i :: 0 <= i < |ws| ==> WriterOk(q, h, i, ws[i])
  }

  /** Writer pc has claimed position p and not published it. */
  predicate Claimed(pc: WriterPc, p: nat)
  {
    (pc.Recheck? || pc.WaitTail? || pc.BeginCopy? || pc.EndCopy? || pc.Publish?) && pc.pos == p
  }

  /** Every pending claim belongs to a writer that is still working on it. */
  ghost predicate OwnersOk(h: History, ws: seq<WriterPc>)
  {
    forall p :: 0 <= p < |h.claims| && h.claims[p].status.Pending? ==>
      h.claims[p].writer < |ws| && Claimed(ws[h.claims[p].writer], p)
  }

  /** Call c is undecided and pc is working on it. */
  predicate Holds(pc: WriterPc, c: nat)
  {
    !pc.Idle? && pc.call == c && ((pc.Signal? || pc.Post?) ==> pc.tomb)
  }

  /** The put of call c has published its record and can only return 0. */
  predicate Returning(pc: WriterPc, c: nat)
  {
    (pc.Signal? || pc.Post?) && !pc.tomb && pc.call == c
  }

  ghost predicate FateOk(h: History, ws: seq<WriterPc>, c: nat)
    requires c < |h.fates|
  {
    match h.fates[c]
    case InFlight(i) => i < |ws| && Holds(ws[i], c)
    case Queued(p) =>
      && p < |h.claims| && h.claims[p].call == c && h.claims[p].status.Published?
      && (c in h.accepted || (h.claims[p].writer < |ws| && Returning(ws[h.claims[p].writer], c)))
    case Direct(k) => k < |h.direct| && h.direct[k] == c
  }

  /** The fate of the call a writer is working on. */
  ghost predicate CallOk(h: History, i: nat, pc: WriterPc)
  {
    !pc.Idle? ==>
      && pc.call < |h.fates|
      && (if Holds(pc, pc.call) then h.fates[pc.call] == InFlight(i) else h.fates[pc.call] == Queued(pc.pos))
  }

  ghost predicate CallsOk(h: History, ws: seq<WriterPc>)
  {
    forall i :: 0 <= i < |ws| ==> CallOk(h, i, ws[i])
  }

  ghost predicate LogsOk(h: History)
  {
    && (forall p :: 0 <= p < |h.claims| && h.claims[p].status.Published? ==>
          h.claims[p].call < |h.fates| && h.fates[h.claims[p].call] == Queued(p))
    && (forall k :: 0 <= k < |h.direct| ==> h.direct[k] < |h.fates| && h.fates[h.direct[k]] == Direct(k))
  }

  /** Every call's record is in exactly one place. */
  ghost predicate FatesOk(h: History, ws: seq<WriterPc>)
  {
    && (forall c :: 0 <= c < |h.fates| ==> FateOk(h, ws, c))
    && CallsOk(h, ws)
    && LogsOk(h)
  }

  predicate InBatch(pc: WorkerPc)
  {
    pc.BatchHead? || pc.BatchTail? || pc.LoadSeq? || pc.CopyOut? || pc.Advance? || pc.Dispatch? || pc.ClearFlag?
  }

  /** `batch` holds the records of the positions from t on. */
  ghost predicate BatchOk(h: History, t: nat, batch: seq<Cell>)
  {
    && t + |batch| <= |h.claims|
    && (forall p :: t <= p < t + |batch| ==> Done(h.claims[p]) && batch[p - t] == CellFor(h.claims[p]))
  }

  /** How many positions have been handed to the dispatcher. */
  function Handed(q: Queue, pc: WorkerPc): int
  {
    if pc.Dispatch? then q.tail - |pc.batch| + pc.next else q.tail
  }

  /** What the worker's next action relies on. */
  ghost predicate PcOk(q: Queue, h: History, pc: WorkerPc)
  {
    match pc
    case LoadTail1(n) => q.tail <= n <= q.head
    case CheckClosed1(n) => n == q.tail
    case LoadTail2(n) => q.tail <= n <= q.head
    case CheckClosed2(n) => n == q.tail
    case SemWait(n) => n == q.tail
    case UnparkReturn(n, ok) => ok || n == q.tail
    case Exited(n) => n == q.tail
    case BatchTail(n) => q.tail <= n <= q.head
    case LoadSeq(available, t, batch) =>
      t == q.tail && |batch| <= available <= q.head - t && BatchOk(h, t, batch)
    case CopyOut(available, t, batch) =>
      && t == q.tail && |batch| < available <= q.head - t && BatchOk(h, t, batch)
      && t + |batch| < |h.claims| && Done(h.claims[t + |batch|])
    case Advance(t, batch) => t == q.tail && BatchOk(h, t, batch)
    case Dispatch(batch, k) => k <= |batch| <= q.tail && BatchOk(h, q.tail - |batch|, batch)
    case _ => true
  }

  ghost predicate WorkerOk(q: Queue, h: History, pc: WorkerPc)
  {
    && q.processing == InBatch(pc)
    && q.tail <= q.head == |h.claims|
    && 0 <= Handed(q, pc) <= q.tail
    && h.delivered == Skim(h.claims[..Handed(q, pc)])
    && PcOk(q, h, pc)
  }

  predicate Parking(pc: WorkerPc)
  {
    pc.LoadHead2? || pc.LoadTail2? || pc.CheckClosed2? || pc.SemWait?
  }

  /** Writer pc has claimed position p and not yet tried to wake the worker. */
  predicate Unsignalled(pc: WriterPc, p: nat)
  {
    Claimed(pc, p) || (pc.Signal? && pc.pos == p)
  }

  /** Position p was claimed after the worker parked and its claimant has not signalled;
      only a claim a full lap ahead can have been abandoned. */
  ghost predicate Waking(q: Queue, h: History, ws: seq<WriterPc>, p: nat)
    requires p < |h.claims|
  {
    || (h.claims[p].status.Abandoned? && p >= q.tail + q.cap)
    || (h.claims[p].writer < |ws| && Unsignalled(ws[h.claims[p].writer], p))
  }

  predicate Posting(ws: seq<WriterPc>)
  {
    exists j :: 0 <= j < |ws| && ws[j].Post?
  }

  /** No wake-up is lost while the worker parks. */
  ghost predicate WakeOk(s: State)
  {
    && (Parking(s.worker) && !s.q.parked ==> s.q.items > 0 || Posting(s.writers))
    && (Parking(s.worker) && !s.worker.LoadHead2? && s.q.parked ==>
          forall p :: s.worker.head <= p < |s.h.claims| ==> Waking(s.q, s.h, s.writers, p))
  }

  ghost predicate CloseOk(s: State)
  {
    && (s.closer.Open? <==> !s.q.closed)
    && (s.worker.SemWait? && s.q.closed ==> s.q.items > 0 || s.closer.PostClose?)
  }

  ghost predicate QueuedBelow(h: History, need: set<nat>, bound: nat)
  {
    forall c :: c in need ==> c < |h.fates| && h.fates[c].Queued? && h.fates[c].pos < bound
  }

  ghost predicate FlushOk(q: Queue, h: History, pc: FlusherPc)
  {
    && QueuedBelow(h, h.accepted, q.head)
    && match pc
       case NoFlush => true
       case FlushHead(need) => QueuedBelow(h, need, q.head)
       case FlushTail(need, n) => n <= q.head && QueuedBelow(h, need, n)
       case FlushFlag(need) => QueuedBelow(h, need, q.tail)
       case Flushed(need) => forall c :: c in need ==> Record(c) in h.delivered
  }

  /** How many writers have passed the pre-check and not yet claimed. */
  function Claiming(ws: seq<WriterPc>): nat
  {
    if ws == [] then 0 else Claiming(ws[..|ws| - 1]) + if ws[|ws| - 1].FetchAdd? then 1 else 0
  }

  ghost predicate BoundOk(q: Queue, ws: seq<WriterPc>)
  {
    if |ws| == 0 then q.head == 0 else q.head - q.tail + Claiming(ws) <= q.cap + |ws| - 1
  }

  ghost predicate Inv(s: State)
  {
    && s.q.Valid()
    && ClaimsOk(s.q, s.h)
    && SlotsOk(s.q, s.h)
    && WritersOk(s.q, s.h, s.writers)
    && OwnersOk(s.h, s.writers)
    && FatesOk(s.h, s.writers)
    && WorkerOk(s.q, s.h, s.worker)
    && WakeOk(s)
    && CloseOk(s)
    && FlushOk(s.q, s.h, s.flusher)
    && BoundOk(s.q, s.writers)
  }

  lemma InitInv(cap: nat, n: nat)
    requires cap > 0
    ensures Inv(Init(cap, n))
  {
    var s := Init(cap, n);
    NoneClaiming(s.writers);
    assert s.h.claims[..0] == [];
  }

  lemma {:induction false} NoneClaiming(ws: seq<WriterPc>)
    requires forall i :: 0 <= i < |ws| ==> ws[i].Idle?
    ensures Claiming(ws) == 0
  {
    if ws == [] {
    } else {
      NoneClaiming(ws[..|ws| - 1]);
    }
  }
}
