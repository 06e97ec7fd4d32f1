/** Every step of a writer keeps the pipeline invariant. */
module PipelineWriters {
  import opened AsyncPipeline
  import opened PipelineInvariant
  import opened RingIndex

  ghost predicate Ready(q: Queue, h: History, i: nat, pc: WriterPc)
  {
    q.Valid() && ClaimsOk(q, h) && SlotsOk(q, h) && WriterOk(q, h, i, pc) && CallOk(h, i, pc)
  }

  /** History only grows: published claims and queued records stay as they are. */
  ghost predicate Extends(h: History, h': History)
  {
    && |h.claims| <= |h'.claims|
    && (forall p :: 0 <= p < |h.claims| && !h.claims[p].status.Pending? ==> h'.claims[p] == h.claims[p])
    && |h.fates| <= |h'.fates|
    && (forall c :: 0 <= c < |h.fates| && h.fates[c].Queued? ==> h'.fates[c] == h.fates[c])
    && h'.delivered == h.delivered
  }

  lemma WriterExtends(q: Queue, h: History, i: nat, pc: WriterPc)
    requires Ready(q, h, i, pc)
    ensures var w := WriterStep(q, h, i, pc);
      Extends(h, w.h) && w.q.tail == q.tail && w.q.head >= q.head && w.q.processing == q.processing &&
        w.q.closed == q.closed
      && ClaimsOk(w.q, w.h)
  {
  }
  
  /** No published, unconsumed position shares the slot of a pending position in the window. */
  lemma SlotIsFree(q: Queue, h: History, p: nat)
    requires ClaimsOk(q, h) && SlotsOk(q, h)
    requires p < |h.claims| && h.claims[p].status.Pending? && p < q.tail + q.cap
    ensures forall r :: q.tail <= r < |h.claims| && Done(h.claims[r]) ==> q.Index(r) != q.Index(p)
  {
    forall r | q.tail <= r < |h.claims| && Done(h.claims[r]) && q.Index(r) == q.Index(p)
      ensures false
    {
      SameSlotInWindow(q.tail, r, p, q.cap);
    }
  }

  lemma CopyKeepsSlots(q: Queue, h: History, p: nat, cell: Cell)
    requires ClaimsOk(q, h) && SlotsOk(q, h)
    requires p < |h.claims| && h.claims[p].status.Pending? && p < q.tail + q.cap
    ensures SlotsOk(q.SetRec(p, cell), h)
  {
    SlotIsFree(q, h, p);
    var q' := q.SetRec(p, cell);
    forall k | 0 <= k < q'.cap ensures SeqOk(q', h, k) {
      assert SeqOk(q, h, k);
    }
  }

  lemma PublishKeepsSlots(q: Queue, h: History, p: nat, status: Status)
    requires ClaimsOk(q, h) && SlotsOk(q, h)
    requires p < |h.claims| && h.claims[p].status.Pending? && p < q.tail + q.cap
    requires status.Published? || status.Tombstoned?
    requires q.slots[q.Index(p)].rec == CellOf(h.claims[p].call, status.Tombstoned?)
    ensures SlotsOk(q.SetSeq(p, p + 1), h.Resolve(p, status))
  {
    SlotIsFree(q, h, p);
    var q', h' := q.SetSeq(p, p + 1), h.Resolve(p, status);
    forall k | 0 <= k < q'.cap ensures SeqOk(q', h', k) {
      assert SeqOk(q, h, k);
    }
  }

  /** Claiming a position, or giving one up, publishes nothing. */
  lemma GrowKeepsSlots(q: Queue, h: History, q': Queue, h': History)
    requires SlotsOk(q, h)
    requires q'.Valid() && q'.slots == q.slots && q'.cap == q.cap && q'.tail == q.tail
    requires |h.claims| <= |h'.claims|
    requires forall p :: 0 <= p < |h'.claims| && Done(h'.claims[p]) ==> p < |h.claims| && h'.claims[p] == h.claims[p]
    requires forall p :: 0 <= p < |h.claims| && Done(h.claims[p]) ==> h'.claims[p] == h.claims[p]
    ensures SlotsOk(q', h')
  {
    forall k | 0 <= k < q'.cap ensures SeqOk(q', h', k) {
      assert SeqOk(q, h, k);
    }
  }

  lemma SlotsKept(q: Queue, h: History, i: nat, pc: WriterPc)
    requires Ready(q, h, i, pc)
    ensures var w := WriterStep(q, h, i, pc); SlotsOk(w.q, w.h)
  {
    var w := WriterStep(q, h, i, pc);
    match pc {
      case BeginCopy(c, p, tomb) => CopyKeepsSlots(q, h, p, Torn(i));
      case EndCopy(c, p, tomb) => CopyKeepsSlots(q, h, p, CellOf(c, tomb));
      case Publish(c, p, tomb) =>
        PublishKeepsSlots(q, h, p, if tomb then Tombstoned else Published);
        GrowKeepsSlots(w.q, h.Resolve(p, if tomb then Tombstoned else Published), w.q, w.h);
      case _ => GrowKeepsSlots(q, h, w.q, w.h);
    }
  }

  /** The writer waits for nothing but its own claim and the position of the tail. */
  predicate SlotBlind(pc: WriterPc) { !pc.EndCopy? && !pc.Publish? }

  /** A step of writer i leaves what the other writers rely on: their claims and the tail ... */
  lemma ClaimsKept(q: Queue, h: History, i: nat, pc: WriterPc, j: nat, other: WriterPc)
    requires Ready(q, h, i, pc) && WriterOk(q, h, j, other) && i != j && SlotBlind(other)
    ensures var w := WriterStep(q, h, i, pc); WriterOk(w.q, w.h, j, other)
  {
  }

  lemma ClaimKept(q: Queue, h: History, i: nat, pc: WriterPc, j: nat, c: nat, p: nat)
    requires Ready(q, h, i, pc) && MayWrite(q, h, j, c, p) && i != j
    ensures var w := WriterStep(q, h, i, pc); MayWrite(w.q, w.h, j, c, p)
  {
  }

  /** ... and the slot that they are filling. */
  lemma SlotKept(q: Queue, h: History, i: nat, pc: WriterPc, j: nat, c: nat, p: nat)
    requires Ready(q, h, i, pc) && MayWrite(q, h, j, c, p) && i != j
    ensures WriterStep(q, h, i, pc).q.slots[q.Index(p)].rec == q.slots[q.Index(p)].rec
  {
    if (pc.BeginCopy? || pc.EndCopy? || pc.Publish?) && q.Index(pc.pos) == q.Index(p) {
      SameSlotInWindow(q.tail, pc.pos, p, q.cap);
    }
  }

  lemma OthersKept(q: Queue, h: History, i: nat, pc: WriterPc, j: nat, other: WriterPc)
    requires Ready(q, h, i, pc) && WriterOk(q, h, j, other) && i != j
    ensures var w := WriterStep(q, h, i, pc); WriterOk(w.q, w.h, j, other)
  {
    if SlotBlind(other) {
      ClaimsKept(q, h, i, pc, j, other);
    } else {
      ClaimKept(q, h, i, pc, j, other.call, other.pos);
      SlotKept(q, h, i, pc, j, other.call, other.pos);
    }
  }

  lemma SelfKept(q: Queue, h: History, i: nat, pc: WriterPc)
    requires Ready(q, h, i, pc)
    ensures var w := WriterStep(q, h, i, pc); WriterOk(w.q, w.h, i, w.pc)
  {
  }

  lemma WritersKept(q: Queue, h: History, i: nat, ws: seq<WriterPc>)
    requires i < |ws| && Ready(q, h, i, ws[i]) && WritersOk(q, h, ws)
    ensures var w := WriterStep(q, h, i, ws[i]); WritersOk(w.q, w.h, ws[i := w.pc])
  {
    var w := WriterStep(q, h, i, ws[i]);
    var ws' := ws[i := w.pc];
    SelfKept(q, h, i, ws[i]);
    forall j | 0 <= j < |ws'| && j != i ensures WriterOk(w.q, w.h, j, ws'[j]) {
      OthersKept(q, h, i, ws[i], j, ws[j]);
    }
  }

  lemma OwnersKept(q: Queue, h: History, i: nat, ws: seq<WriterPc>)
    requires i < |ws| && Ready(q, h, i, ws[i]) && OwnersOk(h, ws)
    ensures var w := WriterStep(q, h, i, ws[i]); OwnersOk(w.h, ws[i := w.pc])
  {
    var w := WriterStep(q, h, i, ws[i]);
    forall p | 0 <= p < |w.h.claims| && w.h.claims[p].status.Pending?
      ensures w.h.claims[p].writer < |ws| && Claimed(ws[i := w.pc][w.h.claims[p].writer], p)
    {
      OwnerKept(q, h, i, ws, p);
    }
  }

  lemma OwnerKept(q: Queue, h: History, i: nat, ws: seq<WriterPc>, p: nat)
    requires i < |ws| && Ready(q, h, i, ws[i]) && OwnersOk(h, ws)
    requires var w := WriterStep(q, h, i, ws[i]); p < |w.h.claims| && w.h.claims[p].status.Pending?
    ensures var w := WriterStep(q, h, i, ws[i]);
      w.h.claims[p].writer < |ws| && Claimed(ws[i := w.pc][w.h.claims[p].writer], p)
  {
    assert p < |h.claims| && h.claims[p].status.Pending? ==>
      h.claims[p].writer < |ws| && Claimed(ws[h.claims[p].writer], p);
  }

  lemma CallsKept(q: Queue, h: History, i: nat, ws: seq<WriterPc>)
    requires i < |ws| && Ready(q, h, i, ws[i]) && CallsOk(h, ws)
    ensures var w := WriterStep(q, h, i, ws[i]); CallsOk(w.h, ws[i := w.pc])
  {
    var w := WriterStep(q, h, i, ws[i]);
    var ws' := ws[i := w.pc];
    forall j | 0 <= j < |ws'| ensures CallOk(w.h, j, ws'[j]) {
      assert CallOk(h, j, ws[j]);
    }
  }

  lemma LogsKept(q: Queue, h: History, i: nat, pc: WriterPc)
    requires Ready(q, h, i, pc) && LogsOk(h)
    ensures LogsOk(WriterStep(q, h, i, pc).h)
  {
  }

  /** A step keeps the fate of a call, unless it decides it. */
  lemma FateKept(q: Queue, h: History, i: nat, ws: seq<WriterPc>, c: nat)
    requires i < |ws| && Ready(q, h, i, ws[i]) && c < |h.fates| && FateOk(h, ws, c)
    ensures var w := WriterStep(q, h, i, ws[i]); c < |w.h.fates| && FateOk(w.h, ws[i := w.pc], c)
  {
    var pc := ws[i];
    if pc.Publish? || pc.Fallback? {
      DecisionKeepsFate(q, h, i, ws, c);
    } else {
      OtherStepKeepsFate(q, h, i, ws, c);
    }
  }

  lemma DecisionKeepsFate(q: Queue, h: History, i: nat, ws: seq<WriterPc>, c: nat)
    requires i < |ws| && Ready(q, h, i, ws[i]) && c < |h.fates| && FateOk(h, ws, c)
    requires ws[i].Publish? || ws[i].Fallback?
    ensures var w := WriterStep(q, h, i, ws[i]); c < |w.h.fates| && FateOk(w.h, ws[i := w.pc], c)
  {
    assert h.fates[ws[i].call] == InFlight(i);
  }

  lemma OtherStepKeepsFate(q: Queue, h: History, i: nat, ws: seq<WriterPc>, c: nat)
    requires i < |ws| && Ready(q, h, i, ws[i]) && c < |h.fates| && FateOk(h, ws, c)
    requires !ws[i].Publish? && !ws[i].Fallback?
    ensures var w := WriterStep(q, h, i, ws[i]); c < |w.h.fates| && FateOk(w.h, ws[i := w.pc], c)
  {
    var pc := ws[i];
    var w := WriterStep(q, h, i, pc);
    assert w.h.fates == h.fates && w.h.direct == h.direct;
    if !pc.WaitTail? && !pc.FetchAdd? {
      assert w.h.claims == h.claims;
      assert !pc.Idle? && Holds(pc, c) ==> Holds(w.pc, c);
    }
  }

  lemma FatesKept(q: Queue, h: History, i: nat, ws: seq<WriterPc>)
    requires i < |ws| && Ready(q, h, i, ws[i]) && FatesOk(h, ws)
    ensures var w := WriterStep(q, h, i, ws[i]); FatesOk(w.h, ws[i := w.pc])
  {
    var w := WriterStep(q, h, i, ws[i]);
    CallsKept(q, h, i, ws);
    LogsKept(q, h, i, ws[i]);
    var ws' := ws[i := w.pc];
    forall c | 0 <= c < |w.h.fates| ensures FateOk(w.h, ws', c) {
      FateKept(q, h, i, ws, c);
    }
  }

  lemma BatchFrame(h: History, h': History, t: nat, batch: seq<Cell>)
    requires Extends(h, h') && BatchOk(h, t, batch)
    ensures BatchOk(h', t, batch)
  {
  }

  lemma PrefixFrame(h: History, h': History, n: nat)
    requires Extends(h, h') && n <= |h.claims| && forall p :: 0 <= p < n ==> Done(h.claims[p])
    ensures h'.claims[..n] == h.claims[..n]
  {
  }

  lemma PcFrame(q: Queue, h: History, q': Queue, h': History, pc: WorkerPc)
    requires ClaimsOk(q, h) && ClaimsOk(q', h') && PcOk(q, h, pc) && Extends(h, h')
    requires q'.tail == q.tail && q'.head >= q.head
    ensures PcOk(q', h', pc)
  {
    if pc.LoadSeq? || pc.CopyOut? || pc.Advance? {
      BatchFrame(h, h', pc.tail, pc.batch);
    } else if pc.Dispatch? {
      BatchFrame(h, h', q.tail - |pc.batch|, pc.batch);
    }
  }

  lemma WorkerFrame(q: Queue, h: History, q': Queue, h': History, pc: WorkerPc)
    requires ClaimsOk(q, h) && ClaimsOk(q', h') && WorkerOk(q, h, pc) && Extends(h, h')
    requires q'.tail == q.tail && q'.head >= q.head && q'.processing == q.processing
    ensures WorkerOk(q', h', pc)
  {
    assert h'.claims[..Handed(q, pc)] == h.claims[..Handed(q, pc)] by { PrefixFrame(h, h', Handed(q, pc)); }
    assert PcOk(q', h', pc) by { PcFrame(q, h, q', h', pc); }
  }

  lemma FlushFrame(q: Queue, h: History, i: nat, pc: WriterPc, f: FlusherPc)
    requires Ready(q, h, i, pc) && FlushOk(q, h, f)
    ensures var w := WriterStep(q, h, i, pc); FlushOk(w.q, w.h, f)
  {
    WriterExtends(q, h, i, pc);
  }

  lemma WakingKept(q: Queue, h: History, i: nat, ws: seq<WriterPc>, p: nat)
    requires i < |ws| && Ready(q, h, i, ws[i]) && p < |h.claims| && Waking(q, h, ws, p)
    requires ws[i].Signal? ==> !q.parked
    requires q.parked
    ensures var w := WriterStep(q, h, i, ws[i]); Waking(w.q, w.h, ws[i := w.pc], p)
  {
    WriterExtends(q, h, i, ws[i]);
  }

  lemma WakeKept(s: State, i: nat)
    requires WakeOk(s) && i < |s.writers| && Ready(s.q, s.h, i, s.writers[i])
    ensures WakeOk(Step(s, StepWriter(i)))
  {
    var q, h, ws := s.q, s.h, s.writers;
    var w, s' := WriterStep(q, h, i, ws[i]), Step(s, StepWriter(i));
    var ws' := s'.writers;
    if Posting(ws) && !ws[i].Post? {
      var j :| 0 <= j < |ws| && ws[j].Post?;
      assert ws'[j].Post?;
    }
    if ws[i].Signal? && q.parked {
      assert ws'[i].Post?;
    } else if Parking(s.worker) && !s.worker.LoadHead2? && s'.q.parked {
      forall p | s.worker.head <= p < |s'.h.claims| ensures Waking(s'.q, s'.h, ws', p) {
        if p < |h.claims| {
          WakingKept(q, h, i, ws, p);
        }
      }
    }
  }

  lemma {:induction false} ClaimingUpdate(ws: seq<WriterPc>, i: nat, pc: WriterPc)
    requires i < |ws|
    ensures Claiming(ws[i := pc]) + (if ws[i].FetchAdd? then 1 else 0) == Claiming(ws) + (if pc.FetchAdd? then 1 else 0)
  {
    var n := |ws| - 1;
    if i == n {
      assert ws[i := pc][..n] == ws[..n];
    } else {
      assert ws[i := pc][..n] == ws[..n][i := pc];
      ClaimingUpdate(ws[..n], i, pc);
    }
  }

  lemma {:induction false} ClaimingBound(ws: seq<WriterPc>)
    ensures Claiming(ws) <= |ws|
  {
    if ws == [] {
    } else {
      ClaimingBound(ws[..|ws| - 1]);
    }
  }

  lemma BoundKept(q: Queue, h: History, i: nat, ws: seq<WriterPc>)
    requires i < |ws| && Ready(q, h, i, ws[i]) && BoundOk(q, ws)
    ensures var w := WriterStep(q, h, i, ws[i]); BoundOk(w.q, ws[i := w.pc])
  {
    var w := WriterStep(q, h, i, ws[i]);
    ClaimingUpdate(ws, i, w.pc);
    ClaimingBound(ws[i := w.pc]);
  }

  /** One step of a writer inside a call keeps the invariant. */
  lemma WriterKeepsInv(s: State, i: nat)
    requires Inv(s) && i < |s.writers|
    ensures Inv(Step(s, StepWriter(i)))
  {
    var q, h, ws := s.q, s.h, s.writers;
    assert WriterOk(q, h, i, ws[i]) && CallOk(h, i, ws[i]);
    var w, s' := WriterStep(q, h, i, ws[i]), Step(s, StepWriter(i));
    WriterExtends(q, h, i, ws[i]);
    SlotsKept(q, h, i, ws[i]);
    WritersKept(q, h, i, ws);
    OwnersKept(q, h, i, ws);
    FatesKept(q, h, i, ws);
    WorkerFrame(q, h, w.q, w.h, s.worker);
    WakeKept(s, i);
    FlushFrame(q, h, i, ws[i], s.flusher);
    BoundKept(q, h, i, ws);
    assert CloseOk(s');
  }

  lemma EnterKeepsWriters(q: Queue, h: History, ws: seq<WriterPc>, i: nat, cloned: bool)
    requires q.Valid() && i < |ws| && ws[i].Idle? && WritersOk(q, h, ws) && OwnersOk(h, ws) && BoundOk(q, ws)
    ensures var w := Enter(q, h, i, cloned);
      WritersOk(q, w.h, ws[i := w.pc]) && OwnersOk(w.h, ws[i := w.pc]) && BoundOk(q, ws[i := w.pc])
  {
    var w := Enter(q, h, i, cloned);
    var ws' := ws[i := w.pc];
    forall j | 0 <= j < |ws'| ensures WriterOk(q, w.h, j, ws'[j]) {
      assert WriterOk(q, h, j, ws[j]);
    }
    ClaimingUpdate(ws, i, w.pc);
  }

  lemma EnterKeepsFates(q: Queue, h: History, ws: seq<WriterPc>, i: nat, cloned: bool)
    requires i < |ws| && ws[i].Idle? && FatesOk(h, ws)
    ensures var w := Enter(q, h, i, cloned); FatesOk(w.h, ws[i := w.pc])
  {
    var w := Enter(q, h, i, cloned);
    var ws' := ws[i := w.pc];
    forall j | 0 <= j < |ws'| ensures CallOk(w.h, j, ws'[j]) {
      assert CallOk(h, j, ws[j]);
    }
    forall c | 0 <= c < |w.h.fates| ensures FateOk(w.h, ws', c) {
      assert c < |h.fates| ==> FateOk(h, ws, c);
    }
  }

  /** Entering `log_async_write_for` keeps the invariant. */
  lemma CallKeepsInv(s: State, i: nat, cloned: bool)
    requires Inv(s) && i < |s.writers|
    ensures Inv(Step(s, StartCall(i, cloned)))
  {
    if s.writers[i].Idle? {
      var q, h, ws := s.q, s.h, s.writers;
      var s' := Step(s, StartCall(i, cloned));
      var ws' := s'.writers;
      EnterKeepsWriters(q, h, ws, i, cloned);
      EnterKeepsFates(q, h, ws, i, cloned);
      GrowKeepsSlots(q, h, s'.q, s'.h);
      WorkerFrame(q, h, s'.q, s'.h, s.worker);
      EnterKeepsWake(s, i, cloned);
    }
  }

  lemma EnterKeepsWake(s: State, i: nat, cloned: bool)
    requires s.q.Valid() && WakeOk(s) && i < |s.writers| && s.writers[i].Idle?
    ensures WakeOk(Step(s, StartCall(i, cloned)))
  {
    var s' := Step(s, StartCall(i, cloned));
    if Posting(s.writers) {
      var j :| 0 <= j < |s.writers| && s.writers[j].Post?;
      assert s'.writers[j].Post?;
    }
    if Parking(s.worker) && !s.worker.LoadHead2? && s.q.parked {
      forall p | s.worker.head <= p < |s'.h.claims| ensures Waking(s'.q, s'.h, s'.writers, p) {
        assert Waking(s.q, s.h, s.writers, p);
      }
    }
  }
}
