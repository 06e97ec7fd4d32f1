/** Every step of the worker, the flusher and the closer keeps the pipeline invariant;
    so every reachable state satisfies it. */
module PipelineWorker {
  import opened AsyncPipeline
  import opened PipelineInvariant
  import opened PipelineWriters

  /** A sequence number equal to position + 1 is only ever seen on a published position. */
  lemma SeqMeansDone(q: Queue, h: History, p: nat)
    requires SlotsOk(q, h) && p < |h.claims|
    requires q.slots[q.Index(p)].seqno == p + 1
    ensures Done(h.claims[p])
  {
    assert SeqOk(q, h, q.Index(p));
    assert q.Index(p) <= p;
  }

  lemma SkimStep(cs: seq<Claim>, n: nat)
    requires n < |cs|
    ensures Skim(cs[..n + 1]) == Skim(cs[..n]) + if cs[n].status.Published? then [Record(cs[n].call)] else []
  {
    assert cs[..n + 1][..n] == cs[..n];
  }

  /** What a worker step promises: its own invariant, and that it only consumes
      published positions and only adds to what was delivered. */
  ghost predicate WorkerTakes(q: Queue, h: History, w: WorkerTo)
    requires ClaimsOk(q, h)
  {
    && WorkerOk(w.q, h.(delivered := w.delivered), w.pc)
    && q.tail <= w.q.tail <= q.head
    && (forall p :: q.tail <= p < w.q.tail ==> Done(h.claims[p]))
    && h.delivered <= w.delivered
  }

  lemma LoadSeqKept(q: Queue, h: History, pc: WorkerPc)
    requires SlotsOk(q, h) && ClaimsOk(q, h) && WorkerOk(q, h, pc) && pc.LoadSeq?
    ensures WorkerTakes(q, h, WorkerStep(q, h.delivered, pc))
  {
    var p := pc.tail + |pc.batch|;
    if |pc.batch| < pc.available && q.slots[q.Index(p)].seqno == p + 1 {
      SeqMeansDone(q, h, p);
    }
  }

  /** The copy out of a slot yields the record published there, whole. */
  lemma CopyOutKept(q: Queue, h: History, pc: WorkerPc)
    requires SlotsOk(q, h) && ClaimsOk(q, h) && WorkerOk(q, h, pc) && pc.CopyOut?
    ensures WorkerTakes(q, h, WorkerStep(q, h.delivered, pc))
  {
    var p := pc.tail + |pc.batch|;
    assert q.slots[q.Index(p)].rec == CellFor(h.claims[p]);
  }

  lemma AdvanceKept(q: Queue, h: History, pc: WorkerPc)
    requires q.Valid() && ClaimsOk(q, h) && WorkerOk(q, h, pc) && pc.Advance?
    ensures WorkerTakes(q, h, WorkerStep(q, h.delivered, pc))
  {
  }

  lemma DispatchKept(q: Queue, h: History, pc: WorkerPc)
    requires q.Valid() && ClaimsOk(q, h) && WorkerOk(q, h, pc) && pc.Dispatch?
    ensures WorkerTakes(q, h, WorkerStep(q, h.delivered, pc))
  {
    if pc.next < |pc.batch| {
      var p := q.tail - |pc.batch| + pc.next;
      var w := WorkerStep(q, h.delivered, pc);
      assert pc.batch[pc.next] == CellFor(h.claims[p]);
      assert w.delivered == Skim(h.claims[..p + 1]) by {
        SkimStep(h.claims, p);
      }
      assert Handed(w.q, w.pc) == p + 1;
    }
  }

  /** The steps of `mpsc_queue_wait_for_items`. */
  lemma WaitKept(q: Queue, h: History, pc: WorkerPc)
    requires ClaimsOk(q, h) && WorkerOk(q, h, pc) && q.Valid() && !InBatch(pc)
    ensures WorkerTakes(q, h, WorkerStep(q, h.delivered, pc))
  {
  }

  lemma WorkerKept(q: Queue, h: History, pc: WorkerPc)
    requires SlotsOk(q, h) && ClaimsOk(q, h) && WorkerOk(q, h, pc)
    ensures WorkerTakes(q, h, WorkerStep(q, h.delivered, pc))
  {
    match pc {
      case LoadSeq(_, _, _) => LoadSeqKept(q, h, pc);
      case CopyOut(_, _, _) => CopyOutKept(q, h, pc);
      case Advance(_, _) => AdvanceKept(q, h, pc);
      case Dispatch(_, _) => DispatchKept(q, h, pc);
      case _ => if !InBatch(pc) { WaitKept(q, h, pc); }
    }
  }

  lemma QueueFrame(q: Queue, h: History, ws: seq<WriterPc>, pc: WorkerPc)
    requires SlotsOk(q, h) && ClaimsOk(q, h) && WorkerOk(q, h, pc) && WritersOk(q, h, ws) && BoundOk(q, ws)
    ensures var w := WorkerStep(q, h.delivered, pc);
      var h' := h.(delivered := w.delivered);
      ClaimsOk(w.q, h') && SlotsOk(w.q, h') && WritersOk(w.q, h', ws) && BoundOk(w.q, ws)
  {
    WorkerKept(q, h, pc);
    var w := WorkerStep(q, h.delivered, pc);
    var h' := h.(delivered := w.delivered);
    assert w.q.slots == q.slots && w.q.head == q.head;
    forall k | 0 <= k < w.q.cap ensures SeqOk(w.q, h', k) {
      assert SeqOk(q, h, k);
    }
    forall j | 0 <= j < |ws| ensures WriterOk(w.q, h', j, ws[j]) {
      assert WriterOk(q, h, j, ws[j]);
    }
  }

  lemma FatesFrame(h: History, ws: seq<WriterPc>, delivered: seq<Cell>)
    requires FatesOk(h, ws)
    ensures FatesOk(h.(delivered := delivered), ws)
  {
    var h' := h.(delivered := delivered);
    forall c | 0 <= c < |h'.fates| ensures FateOk(h', ws, c) {
      assert FateOk(h, ws, c);
    }
    forall j | 0 <= j < |ws| ensures CallOk(h', j, ws[j]) {
      assert CallOk(h, j, ws[j]);
    }
  }

  lemma WakeFrame(s: State)
    requires s.q.Valid() && WakeOk(s) && s.q.head == |s.h.claims|
    ensures WakeOk(Step(s, StepWorker))
  {
    var s' := Step(s, StepWorker);
    if Parking(s'.worker) && !s'.worker.LoadHead2? && s'.q.parked && !s.worker.LoadHead2? {
      forall p | s'.worker.head <= p < |s'.h.claims| ensures Waking(s'.q, s'.h, s'.writers, p) {
        assert Waking(s.q, s.h, s.writers, p);
      }
    }
  }

  lemma CloseFrame(s: State)
    requires s.q.Valid() && CloseOk(s)
    ensures CloseOk(Step(s, StepWorker))
  {
  }

  lemma WorkerKeepsInv(s: State)
    requires Inv(s)
    ensures Inv(Step(s, StepWorker))
  {
    var s' := Step(s, StepWorker);
    WorkerKept(s.q, s.h, s.worker);
    QueueFrame(s.q, s.h, s.writers, s.worker);
    FatesFrame(s.h, s.writers, s'.h.delivered);
    WakeFrame(s);
    CloseFrame(s);
    assert OwnersOk(s'.h, s'.writers);
    assert FlushOk(s'.q, s'.h, s'.flusher);
  }

  lemma {:induction false} SkimContains(cs: seq<Claim>, p: nat)
    requires p < |cs| && cs[p].status.Published?
    ensures Record(cs[p].call) in Skim(cs)
  {
    if p < |cs| - 1 {
      SkimContains(cs[..|cs| - 1], p);
    }
  }

  lemma FlusherKeepsInv(s: State)
    requires Inv(s)
    ensures Inv(Step(s, StepFlusher)) && Inv(Step(s, StartFlush))
  {
    if s.flusher.FlushFlag? && !s.q.processing {
      forall c | c in s.flusher.need ensures Record(c) in s.h.delivered {
        assert FateOk(s.h, s.writers, c);
        SkimContains(s.h.claims[..s.q.tail], s.h.fates[c].pos);
      }
    }
  }

  lemma CloserKeepsInv(s: State)
    requires Inv(s)
    ensures Inv(Step(s, StepCloser))
  {
    var s' := Step(s, StepCloser);
    QueueChange(s, s'.q);
  }

  /** Setting `closed` or posting changes nothing the writers and the worker rely on. */
  lemma QueueChange(s: State, q': Queue)
    requires Inv(s)
    requires q' == s.q.(closed := q'.closed, items := q'.items) && q'.items >= s.q.items
    ensures ClaimsOk(q', s.h) && SlotsOk(q', s.h) && WritersOk(q', s.h, s.writers)
    ensures WorkerOk(q', s.h, s.worker) && FlushOk(q', s.h, s.flusher)
    ensures forall c :: WakeOk(s.(q := q', closer := c))
  {
    GrowKeepsSlots(s.q, s.h, q', s.h);
    forall j | 0 <= j < |s.writers| ensures WriterOk(q', s.h, j, s.writers[j]) {
      assert WriterOk(s.q, s.h, j, s.writers[j]);
    }
    if Parking(s.worker) && !s.worker.LoadHead2? && s.q.parked {
      forall p | s.worker.head <= p < |s.h.claims| ensures Waking(q', s.h, s.writers, p) {
        assert Waking(s.q, s.h, s.writers, p);
      }
    }
  }

  lemma StepKeepsInv(s: State, a: Action)
    requires Inv(s)
    ensures Inv(Step(s, a))
  {
    match a {
      case StartCall(i, cloned) => if i < |s.writers| { CallKeepsInv(s, i, cloned); }
      case StepWriter(i) => if i < |s.writers| { WriterKeepsInv(s, i); }
      case StepWorker => WorkerKeepsInv(s);
      case StartFlush => FlusherKeepsInv(s);
      case StepFlusher => FlusherKeepsInv(s);
      case StepCloser => CloserKeepsInv(s);
    }
  }

  lemma {:induction false} RunKeepsInv(s: State, schedule: seq<Action>)
    requires Inv(s)
    ensures Inv(Run(s, schedule))
    decreases |schedule|
  {
    if schedule == [] {
    } else {
      StepKeepsInv(s, schedule[0]);
      RunKeepsInv(Step(s, schedule[0]), schedule[1..]);
    }
  }

  /** Every state any schedule leads to satisfies the invariant. */
  lemma Reachable(cap: nat, writers: nat, schedule: seq<Action>)
    requires cap > 0
    ensures Inv(Run(Init(cap, writers), schedule))
  {
    InitInv(cap, writers);
    RunKeepsInv(Init(cap, writers), schedule);
  }
}
