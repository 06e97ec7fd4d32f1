/** What returns: the worker leaves a closed queue, and a flush of an open queue comes to its end,
    exactly when no claim was abandoned. */
module PipelineReturns {
  import opened AsyncPipeline
  import opened PipelineInvariant
  import opened PipelineWorker
  import opened PipelineTheorems
  import opened PipelineShutdown
  import opened PipelineProgress
  import opened PipelineHoles

  // ---- the worker's steps to its exit ----

  /** Steps of the worker to its exit when the queue is closed and nothing is queued. */
  function ToExit(pc: WorkerPc): nat
  {
    match pc
    case Exited(_) => 0
    case CheckClosed1(_) => 1
    case LoadTail1(_) => 2
    case LoadHead1 => 3
    case UnparkLoop => 4
    case SemWait(_) => 5
    case UnparkReturn(_, ok) => if ok then 12 else 1
    case CheckClosed2(_) => 2
    case LoadTail2(_) => 3
    case LoadHead2 => 4
    case Park => 5
    case ClearFlag => 4
    case Dispatch(batch, k) => if k >= |batch| then 5 else 5 + (|batch| - k)
    case Advance(_, batch) => |batch| + 7
    case LoadSeq(_, _, batch) => |batch| + 8
    case CopyOut(_, _, _) => 0
    case BatchTail(_) => 9
    case BatchHead => 10
    case RaiseFlag => 11
  }

  function WayOut(q: Queue, pc: WorkerPc): nat
  {
    if q.head > q.tail then ToAdvance(pc, q.tail, q.head - q.tail) else ToExit(pc)
  }

  /** Nobody but the worker and the closer can move before they do. */
  predicate Resting(s: State)
  {
    forall i :: 0 <= i < |s.writers| ==> NotPutting(s.writers[i]) || Stuck(s.q, s.writers[i])
  }

  lemma OldestIsPublished(s: State)
    requires Inv(s) && NoHole(s.h) && Resting(s) && s.q.tail < s.q.head
    ensures s.q.slots[s.q.Index(s.q.tail)].seqno == s.q.tail + 1
  {
    assert !HoleAt(s.h, s.q.tail);
    assert forall i :: 0 <= i < |s.writers| ==> !Claimed(s.writers[i], s.q.tail);
  }

  /** One step nearer to the exit. */
  ghost predicate NearerOut(q: Queue, pc: WorkerPc, w: WorkerTo)
  {
    w.q.head == q.head && w.q.closed == q.closed &&
    (w.q.tail > q.tail || (w.q.tail == q.tail && WayOut(w.q, w.pc) < WayOut(q, pc)))
  }

  lemma EmptyStepsOut(q: Queue, h: History, pc: WorkerPc)
    requires q.Valid() && q.closed && q.tail == q.head && WorkerOk(q, h, pc) && !pc.Exited?
    requires pc.SemWait? ==> q.items > 0
    ensures NearerOut(q, pc, WorkerStep(q, h.delivered, pc))
  {
  }

  lemma WorkerStepsOut(s: State)
    requires Inv(s) && s.q.closed && NoHole(s.h) && Resting(s) && !s.worker.Exited?
    requires s.worker.SemWait? ==> s.q.items > 0
    ensures NearerOut(s.q, s.worker, WorkerStep(s.q, s.h.delivered, s.worker))
  {
    if s.q.tail == s.q.head {
      EmptyStepsOut(s.q, s.h, s.worker);
    } else {
      OldestIsPublished(s);
      if s.worker.LoadSeq? || s.worker.CopyOut? {
        SlotStepsOn(s.q, s.h, s.worker);
      } else if InBatch(s.worker) {
        BatchStepsOn(s.q, s.h, s.worker);
      } else {
        WaitStepsOn(s.q, s.h, s.worker);
      }
      KeepsClosed(s.q, s.h, s.worker);
    }
  }

  lemma KeepsClosed(q: Queue, h: History, pc: WorkerPc)
    requires q.Valid()
    ensures WorkerStep(q, h.delivered, pc).q.closed == q.closed
  {
  }

  // ---- somebody moves ----

  function CloserLeft(pc: CloserPc): nat { if pc.PostClose? then 1 else 0 }

  /** Less is left to do before the exit. */
  ghost predicate CloserToExit(t: State, s: State)
  {
    var w, v := WritersLeft(s.writers, |s.writers|), WritersLeft(t.writers, |t.writers|);
    var c, d := CloserLeft(s.closer), CloserLeft(t.closer);
    var m, n := s.q.head - s.q.tail, t.q.head - t.q.tail;
    n >= 0 &&
    (v < w || (v == w && (d < c || (d == c && (n < m || (n == m && WayOut(t.q, t.worker) < WayOut(s.q, s.worker)))))))
  }

  predicate AllOutside(ws: seq<WriterPc>) { forall i :: 0 <= i < |ws| ==> NotPutting(ws[i]) }

  /** The threads that are there, and the closer. */
  predicate ByThreads(a: Action) { a.StepWriter? || a.StepWorker? || a.StepCloser? }

  ghost predicate GoesOut(s: State, a: Action)
    requires s.q.Valid()
  {
    var t := Step(s, a);
    && ByThreads(a) && t.q.closed && NoHole(t.h) && CloserToExit(t, s)
    && (AllOutside(s.writers) ==> !a.StepWriter? && AllOutside(t.writers))
  }

  lemma WriterGoesOut(s: State, i: nat)
    requires Inv(s) && Inv(Step(s, StepWriter(i))) && s.q.closed && NoHole(s.h) && i < |s.writers|
    requires !NotPutting(s.writers[i]) && !Stuck(s.q, s.writers[i])
    ensures GoesOut(s, StepWriter(i))
  {
    WriterAdvances(s, i);
    assert forall p: nat :: !HoleAt(Step(s, StepWriter(i)).h, p);
  }

  lemma CloserGoesOut(s: State)
    requires Inv(s) && Inv(Step(s, StepCloser)) && s.q.closed && NoHole(s.h) && s.closer.PostClose?
    ensures GoesOut(s, StepCloser)
  {
  }

  lemma WorkerGoesOut(s: State)
    requires Inv(s) && Inv(Step(s, StepWorker)) && s.q.closed && NoHole(s.h) && Resting(s) && !s.worker.Exited?
    requires s.worker.SemWait? ==> s.q.items > 0
    ensures GoesOut(s, StepWorker)
  {
    var t := Step(s, StepWorker);
    WorkerStepsOut(s);
    assert t.writers == s.writers && t.closer == s.closer && t.h.claims == s.h.claims;
    assert NoHole(t.h) by {
      assert forall p: nat :: HoleAt(t.h, p) ==> HoleAt(s.h, p);
    }
    NearerIsCloser(s, t, WorkerStep(s.q, s.h.delivered, s.worker));
  }

  lemma NearerIsCloser(s: State, t: State, w: WorkerTo)
    requires NearerOut(s.q, s.worker, w) && t.q == w.q && t.worker == w.pc && t.q.tail <= t.q.head
    requires t.writers == s.writers && t.closer == s.closer
    ensures CloserToExit(t, s)
  {
  }

  lemma SomeoneGoesOut(s: State) returns (a: Action)
    requires Inv(s) && s.q.closed && NoHole(s.h) && !s.worker.Exited?
    ensures Inv(Step(s, a)) && GoesOut(s, a)
  {
    if !Resting(s) {
      var i :| 0 <= i < |s.writers| && !NotPutting(s.writers[i]) && !Stuck(s.q, s.writers[i]);
      a := StepWriter(i);
      StepKeepsInv(s, a);
      WriterGoesOut(s, i);
    } else if s.worker.SemWait? && s.q.items == 0 {
      a := StepCloser;
      StepKeepsInv(s, a);
      CloserGoesOut(s);
    } else {
      a := StepWorker;
      StepKeepsInv(s, a);
      WorkerGoesOut(s);
    }
  }

  /** Only steps of the threads; without a put in flight, only of the worker and the closer. */
  predicate Leaves(s: State, rest: seq<Action>)
  {
    (forall k :: 0 <= k < |rest| ==> ByThreads(rest[k])) &&
    (AllOutside(s.writers) ==> forall k :: 0 <= k < |rest| ==> !rest[k].StepWriter?)
  }

  lemma FirstThen(s: State, a: Action, rest: seq<Action>)
    requires s.q.Valid() && GoesOut(s, a) && Leaves(Step(s, a), rest)
    ensures Leaves(s, [a] + rest) && Run(s, [a] + rest) == Run(Step(s, a), rest)
  {
    assert ([a] + rest)[1..] == rest;
  }

  lemma {:induction false} GetsOut(s: State) returns (rest: seq<Action>)
    requires Inv(s) && s.q.closed && NoHole(s.h)
    ensures Leaves(s, rest) && Run(s, rest).worker.Exited?
    decreases WritersLeft(s.writers, |s.writers|), CloserLeft(s.closer), s.q.head - s.q.tail, WayOut(s.q, s.worker)
  {
    if s.worker.Exited? {
      rest := [];
    } else {
      var a := SomeoneGoesOut(s);
      var more := GetsOut(Step(s, a));
      FirstThen(s, a, more);
      rest := [a] + more;
    }
  }

  /** Shutdown comes to its end: from every reachable state of a closed queue without an abandoned
      claim the threads can run until the worker has exited, and the worker and the closer alone
      can when no put is in flight. */
  lemma CanAlwaysExit(cap: nat, writers: nat, schedule: seq<Action>) returns (rest: seq<Action>)
    requires cap > 0 && After(cap, writers, schedule).q.closed && NoHole(After(cap, writers, schedule).h)
    ensures var s := After(cap, writers, schedule); Leaves(s, rest) && Run(s, rest).worker.Exited?
  {
    Reachable(cap, writers, schedule);
    rest := GetsOut(After(cap, writers, schedule));
  }

  // ---- behind an abandoned claim nobody returns ----

  /** The worker has not seen the queue empty since position p was abandoned. */
  predicate Facing(pc: WorkerPc, p: nat)
  {
    match pc
    case LoadTail1(h) => h > p
    case LoadTail2(h) => h > p
    case CheckClosed1(_) => false
    case CheckClosed2(_) => false
    case SemWait(_) => false
    case UnparkReturn(_, ok) => ok
    case Exited(_) => false
    case _ => true
  }

  lemma HoleIsQueued(s: State, p: nat)
    requires Inv(s) && HoleAt(s.h, p)
    ensures s.q.tail <= p < s.q.head
  {
    assert !Done(s.h.claims[p]);
  }

  lemma StepFacesHole(s: State, a: Action, p: nat)
    requires Inv(s) && HoleAt(s.h, p) && Facing(s.worker, p)
    ensures Facing(Step(s, a).worker, p)
  {
    HoleIsQueued(s, p);
  }

  /** A worker that waits for items after a claim was abandoned never exits. */
  lemma {:induction false} HangsAtHole(s: State, rest: seq<Action>, p: nat)
    requires Inv(s) && HoleAt(s.h, p) && Facing(s.worker, p)
    ensures !Run(s, rest).worker.Exited?
    decreases |rest|
  {
    if rest == [] {
    } else {
      StepKeepsInv(s, rest[0]);
      StepKeepsHole(s, rest[0], p);
      StepFacesHole(s, rest[0], p);
      HangsAtHole(Step(s, rest[0]), rest[1..], p);
    }
  }

  /** A worker that begins to wait on a closed queue can exit exactly when no claim was abandoned;
      otherwise `log_async_shutdown_for` never gets past its join. */
  lemma ExitsIff(cap: nat, writers: nat, schedule: seq<Action>)
    requires cap > 0 && After(cap, writers, schedule).q.closed && After(cap, writers, schedule).worker.LoadHead1?
    ensures var s := After(cap, writers, schedule);
      (exists rest :: Run(s, rest).worker.Exited?) <==> NoHole(s.h)
  {
    var s := After(cap, writers, schedule);
    Reachable(cap, writers, schedule);
    if NoHole(s.h) {
      var rest := CanAlwaysExit(cap, writers, schedule);
    } else {
      var p :| 0 <= p < |s.h.claims| && HoleAt(s.h, p);
      forall rest ensures !Run(s, rest).worker.Exited? {
        HangsAtHole(s, rest, p);
      }
    }
  }

  // ---- flush ----

  predicate Flushing(pc: FlusherPc) { pc.FlushHead? || pc.FlushTail? || pc.FlushFlag? }

  lemma {:induction false} StepsKeepFlusher(s: State, rest: seq<Action>)
    requires s.q.Valid() && OnlySteps(rest)
    ensures Run(s, rest).flusher == s.flusher
    decreases |rest|
  {
    if rest == [] {
    } else {
      StepsKeepFlusher(Step(s, rest[0]), rest[1..]);
    }
  }

  /** Four steps end a flush of a quiescent queue. */
  lemma FlushEnds(s: State)
    requires s.q.Valid() && Quiescent(s) && Flushing(s.flusher)
    ensures Run(s, Repeat(StepFlusher, 4)).flusher == Flushed(s.flusher.need)
  {
    FourSteps(s, StepFlusher);
  }

  /** The threads that are there, and the flusher. */
  predicate ByFlush(rest: seq<Action>)
  {
    forall k :: 0 <= k < |rest| ==> rest[k].StepWriter? || rest[k].StepWorker? || rest[k].StepFlusher?
  }

  lemma {:induction false} FlushComesToEnd(s: State) returns (rest: seq<Action>)
    requires Inv(s) && !s.q.closed && StaysOpen(s) && NoHole(s.h) && Flushing(s.flusher)
    ensures ByFlush(rest) && Run(s, rest).flusher == Flushed(s.flusher.need)
  {
    var steps := Drains(s);
    StepsKeepFlusher(s, steps);
    FlushEnds(Run(s, steps));
    rest := steps + Repeat(StepFlusher, 4);
    RunConcat(s, steps, Repeat(StepFlusher, 4));
  }

  /** A flush that is started or going on comes to its end: while the queue is open and no claim was
      abandoned, the threads and the flusher can run until it returns. */
  lemma CanAlwaysFlush(cap: nat, writers: nat, schedule: seq<Action>) returns (rest: seq<Action>)
    requires cap > 0 && !After(cap, writers, schedule).q.closed && NoHole(After(cap, writers, schedule).h)
    ensures var s := Step(After(cap, writers, schedule), StartFlush);
      Flushing(s.flusher) && ByFlush(rest) && Run(s, rest).flusher == Flushed(s.flusher.need)
  {
    var s := After(cap, writers, schedule);
    Reachable(cap, writers, schedule);
    LeavesClosedOnly(Init(cap, writers), schedule);
    StepKeepsInv(s, StartFlush);
    rest := FlushComesToEnd(Step(s, StartFlush));
  }

  /** The flusher has not seen the queue empty since position p was abandoned. */
  predicate FlushFaces(pc: FlusherPc, p: nat)
  {
    pc.FlushHead? || (pc.FlushTail? && pc.head > p)
  }

  lemma {:induction false} FlushHangsAtHole(s: State, rest: seq<Action>, p: nat)
    requires Inv(s) && HoleAt(s.h, p) && FlushFaces(s.flusher, p)
    ensures !Run(s, rest).flusher.Flushed?
    decreases |rest|
  {
    if rest == [] {
    } else {
      HoleIsQueued(s, p);
      StepKeepsInv(s, rest[0]);
      StepKeepsHole(s, rest[0], p);
      FlushHangsAtHole(Step(s, rest[0]), rest[1..], p);
    }
  }

  /** A flush that begins on an open queue can return exactly when no claim was abandoned. */
  lemma FlushReturnsIff(cap: nat, writers: nat, schedule: seq<Action>)
    requires cap > 0 && !After(cap, writers, schedule).q.closed
    requires var s := After(cap, writers, schedule); !Flushing(s.flusher)
    ensures var s := Step(After(cap, writers, schedule), StartFlush);
      (exists rest :: Run(s, rest).flusher.Flushed?) <==> NoHole(s.h)
  {
    var s := Step(After(cap, writers, schedule), StartFlush);
    Reachable(cap, writers, schedule);
    StepKeepsInv(After(cap, writers, schedule), StartFlush);
    if NoHole(s.h) {
      var rest := CanAlwaysFlush(cap, writers, schedule);
    } else {
      var p :| 0 <= p < |s.h.claims| && HoleAt(s.h, p);
      forall rest ensures !Run(s, rest).flusher.Flushed? {
        FlushHangsAtHole(s, rest, p);
      }
    }
  }
}
