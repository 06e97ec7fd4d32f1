/** From every reachable state of an open queue the threads that are there can finish everything
    before the first abandoned claim: every call returns and every record that is queued there is
    dispatched. */
module PipelineProgress {
  import opened AsyncPipeline
  import opened PipelineInvariant
  import opened PipelineWorker
  import opened PipelineTheorems

  // ---- writers ----

  /** Steps a writer has ahead of it at most, once it need not wait for the tail. */
  function WriterLeft(pc: WriterPc): nat
  {
    match pc
    case Idle => 0
    case Fallback(_) => 1
    case Post(_, _, _) => 2
    case Signal(_, _, _) => 3
    case Publish(_, _, _) => 4
    case EndCopy(_, _, _) => 5
    case BeginCopy(_, _, _) => 6
    case WaitTail(_, _, _, _) => 7
    case Recheck(_, _) => 8
    case FetchAdd(_) => 9
    case LoadHead(_, _) => 10
    case LoadTail(_) => 11
    case CheckClosed(_) => 12
  }

  function WritersLeft(ws: seq<WriterPc>, n: nat): nat
    requires n <= |ws|
  {
    if n == 0 then 0 else WritersLeft(ws, n - 1) + WriterLeft(ws[n - 1])
  }

  lemma {:induction false} WritersLeftUpdate(ws: seq<WriterPc>, i: nat, pc: WriterPc, n: nat)
    requires i < |ws| && n <= |ws|
    ensures WritersLeft(ws[i := pc], n) ==
            WritersLeft(ws, n) + if i < n then WriterLeft(pc) - WriterLeft(ws[i]) else 0
  {
    if n == 0 {
    } else {
      WritersLeftUpdate(ws, i, pc, n - 1);
    }
  }

  /** The writer waits until the position a lap earlier is consumed. */
  predicate Stuck(q: Queue, pc: WriterPc) { pc.WaitTail? && q.tail <= pc.pos - q.cap }

  predicate HoleAt(h: History, p: nat) { p < |h.claims| && h.claims[p].status.Abandoned? }

  predicate NoHoleBelow(h: History, n: nat)
  {
    forall p :: 0 <= p < n ==> !HoleAt(h, p)
  }

  predicate NoHole(h: History) { NoHoleBelow(h, |h.claims|) }

  lemma FewerStepsLeft(q: Queue, h: History, i: nat, pc: WriterPc)
    requires q.Valid() && !pc.Idle? && !Stuck(q, pc)
    ensures WriterLeft(WriterStep(q, h, i, pc).pc) < WriterLeft(pc)
  {
  }

  /** Only a stuck writer abandons its claim. */
  lemma NoNewHole(q: Queue, h: History, i: nat, pc: WriterPc)
    requires q.Valid() && !Stuck(q, pc)
    ensures var w := WriterStep(q, h, i, pc);
      (forall p: nat :: HoleAt(w.h, p) ==> HoleAt(h, p)) && |h.claims| <= |w.h.claims| && w.q.closed == q.closed
  {
  }

  lemma WriterAdvances(s: State, i: nat)
    requires Inv(s) && i < |s.writers| && !s.writers[i].Idle? && !Stuck(s.q, s.writers[i])
    ensures var t := Step(s, StepWriter(i));
      (forall p: nat :: HoleAt(t.h, p) ==> HoleAt(s.h, p)) && |s.h.claims| <= |t.h.claims| &&
      t.q.closed == s.q.closed && t.worker == s.worker &&
      WritersLeft(t.writers, |t.writers|) < WritersLeft(s.writers, |s.writers|)
  {
    FewerStepsLeft(s.q, s.h, i, s.writers[i]);
    NoNewHole(s.q, s.h, i, s.writers[i]);
    WritersLeftUpdate(s.writers, i, WriterStep(s.q, s.h, i, s.writers[i]).pc, |s.writers|);
  }

  // ---- the worker ----

  predicate Leaving(pc: WorkerPc) { pc.Exited? || (pc.UnparkReturn? && !pc.ok) }

  /** The worker leaves only a closed queue. */
  predicate StaysOpen(s: State) { Leaving(s.worker) ==> s.q.closed }

  lemma {:induction false} LeavesClosedOnly(s: State, schedule: seq<Action>)
    requires s.q.Valid() && StaysOpen(s)
    ensures StaysOpen(Run(s, schedule))
    decreases |schedule|
  {
    if schedule == [] {
    } else {
      LeavesClosedOnly(Step(s, schedule[0]), schedule[1..]);
    }
  }

  /** Steps of the worker to the next advance of the tail while claims are unconsumed. */
  function ToAdvance(pc: WorkerPc, tail: nat, queued: nat): nat
  {
    var d := 2 * queued;
    match pc
    case Advance(_, batch) => if batch == [] then d + 10 else 0
    case LoadSeq(available, _, batch) =>
      if available <= |batch| then (if batch == [] then d + 8 else 1) else 2 * (available - |batch|) + 1
    case CopyOut(available, _, batch) => if available <= |batch| then 0 else 2 * (available - |batch|)
    case BatchTail(h) => if h > tail then d + 2 else d + 8
    case BatchHead => d + 3
    case RaiseFlag => d + 4
    case LoadTail1(h) => if h > tail then d + 5 else d + 10
    case UnparkReturn(_, _) => d + 5
    case LoadTail2(h) => if h > tail then d + 6 else d + 10
    case LoadHead1 => d + 6
    case LoadHead2 => d + 7
    case ClearFlag => d + 7
    case UnparkLoop => d + 7
    case Park => d + 8
    case SemWait(_) => d + 8
    case CheckClosed1(_) => d + 9
    case CheckClosed2(_) => d + 9
    case Dispatch(batch, k) => if k >= |batch| then d + 9 else d + 9 + (|batch| - k)
    case Exited(_) => 0
  }

  /** Steps of the worker to the end of its batch when nothing is queued. */
  function ToFinish(pc: WorkerPc): nat
  {
    match pc
    case ClearFlag => 1
    case Dispatch(batch, k) => if k >= |batch| then 2 else 2 + (|batch| - k)
    case Advance(_, batch) => |batch| + 4
    case LoadSeq(_, _, batch) => |batch| + 6
    case BatchTail(_) => 8
    case BatchHead => 9
    case _ => 0
  }

  function WorkerLeft(q: Queue, pc: WorkerPc): nat
  {
    if q.head > q.tail then ToAdvance(pc, q.tail, q.head - q.tail) else ToFinish(pc)
  }

  /** No writer can move before the worker does. */
  predicate Waiting(s: State)
  {
    forall i :: 0 <= i < |s.writers| ==> s.writers[i].Idle? || Stuck(s.q, s.writers[i])
  }

  /** Then the oldest unconsumed claim is published. */
  lemma OldestIsDone(s: State)
    requires Inv(s) && !HoleAt(s.h, s.q.tail) && Waiting(s) && s.q.tail < s.q.head
    ensures Done(s.h.claims[s.q.tail]) && s.q.slots[s.q.Index(s.q.tail)].seqno == s.q.tail + 1
  {
    assert forall i :: 0 <= i < |s.writers| ==> !Claimed(s.writers[i], s.q.tail);
  }

  /** And the worker is not blocked. */
  lemma WorkerIsAwake(s: State)
    requires Inv(s) && !HoleAt(s.h, s.q.tail) && Waiting(s) && s.q.tail < s.q.head && s.worker.SemWait?
    ensures s.q.items > 0
  {
    assert s.q.parked ==> Waking(s.q, s.h, s.writers, s.q.tail);
  }

  /** One step nearer to the next advance of the tail. */
  ghost predicate Nearer(q: Queue, pc: WorkerPc, w: WorkerTo)
  {
    w.q.head == q.head && (w.q.tail > q.tail || (w.q.tail == q.tail && WorkerLeft(w.q, w.pc) < WorkerLeft(q, pc)))
  }

  /** The worker can fetch the oldest claim, or leave. */
  ghost predicate CanFetch(q: Queue, h: History, pc: WorkerPc)
  {
    && q.Valid() && q.tail < q.head && WorkerOk(q, h, pc) && !pc.Exited?
    && q.slots[q.Index(q.tail)].seqno == q.tail + 1 && (pc.SemWait? ==> q.items > 0)
  }

  lemma WaitStepsOn(q: Queue, h: History, pc: WorkerPc)
    requires CanFetch(q, h, pc) && !InBatch(pc)
    ensures Nearer(q, pc, WorkerStep(q, h.delivered, pc))
  {
  }

  lemma BatchStepsOn(q: Queue, h: History, pc: WorkerPc)
    requires CanFetch(q, h, pc) && InBatch(pc) && !pc.LoadSeq? && !pc.CopyOut?
    ensures Nearer(q, pc, WorkerStep(q, h.delivered, pc))
  {
  }

  lemma SlotStepsOn(q: Queue, h: History, pc: WorkerPc)
    requires CanFetch(q, h, pc) && (pc.LoadSeq? || pc.CopyOut?)
    ensures Nearer(q, pc, WorkerStep(q, h.delivered, pc))
  {
  }

  lemma WorkerFetches(s: State)
    requires Inv(s) && !HoleAt(s.h, s.q.tail) && Waiting(s) && s.q.tail < s.q.head && !s.q.closed && StaysOpen(s)
    ensures Nearer(s.q, s.worker, WorkerStep(s.q, s.h.delivered, s.worker))
  {
    OldestIsDone(s);
    assert s.worker.SemWait? ==> s.q.items > 0 by {
      if s.worker.SemWait? {
        WorkerIsAwake(s);
      }
    }
    if s.worker.LoadSeq? || s.worker.CopyOut? {
      SlotStepsOn(s.q, s.h, s.worker);
    } else if InBatch(s.worker) {
      BatchStepsOn(s.q, s.h, s.worker);
    } else {
      WaitStepsOn(s.q, s.h, s.worker);
    }
  }

  lemma NothingQueued(s: State)
    requires Inv(s) && Waiting(s) && s.q.tail == s.q.head
    ensures forall i :: 0 <= i < |s.writers| ==> s.writers[i].Idle?
  {
    forall i | 0 <= i < |s.writers| ensures s.writers[i].Idle? {
      assert WriterOk(s.q, s.h, i, s.writers[i]);
    }
  }

  lemma WorkerFinishes(s: State)
    requires Inv(s) && Waiting(s) && s.q.tail == s.q.head && !Quiescent(s)
    ensures var t := Step(s, StepWorker); t.q.tail == s.q.tail && WorkerLeft(t.q, t.worker) < WorkerLeft(s.q, s.worker)
  {
    NothingQueued(s);
    assert InBatch(s.worker);
  }

  lemma DispatchStepsOn(s: State)
    requires Inv(s) && s.worker.Dispatch?
    ensures var t := Step(s, StepWorker);
      t.q.tail == s.q.tail && t.q.head == s.q.head && WorkerLeft(t.q, t.worker) < WorkerLeft(s.q, s.worker)
  {
  }

  // ---- runs ----

  /** Only steps of the threads that are there: no new calls, no close. */
  predicate OnlySteps(schedule: seq<Action>)
  {
    forall k :: 0 <= k < |schedule| ==> schedule[k].StepWriter? || schedule[k].StepWorker?
  }

  lemma Prefixed(s: State, a: Action, rest: seq<Action>)
    requires s.q.Valid() && (a.StepWriter? || a.StepWorker?) && OnlySteps(rest)
    ensures Run(s, [a] + rest) == Run(Step(s, a), rest) && OnlySteps([a] + rest)
  {
    assert ([a] + rest)[1..] == rest;
  }

  lemma StepStaysOpen(s: State, a: Action)
    requires s.q.Valid() && StaysOpen(s)
    ensures StaysOpen(Step(s, a))
  {
  }

  /** The work left becomes smaller: steps of writers first, then queued claims, then steps of the
      worker. */
  ghost predicate Smaller(t: State, s: State)
  {
    var w, v := WritersLeft(s.writers, |s.writers|), WritersLeft(t.writers, |t.writers|);
    var m, n := s.q.head - s.q.tail, t.q.head - t.q.tail;
    n >= 0 && (v < w || (v == w && (n < m || (n == m && WorkerLeft(t.q, t.worker) < WorkerLeft(s.q, s.worker)))))
  }

  /** Progress without new holes. */
  ghost predicate MovesOn(s: State, t: State)
  {
    Smaller(t, s) && t.q.closed == s.q.closed && |s.h.claims| <= |t.h.claims| &&
    forall p: nat :: HoleAt(t.h, p) ==> HoleAt(s.h, p)
  }

  lemma WorkerMovesOn(s: State)
    requires Inv(s) && Inv(Step(s, StepWorker)) && !s.q.closed && StaysOpen(s)
    requires s.worker.Dispatch? || (Waiting(s) && !Quiescent(s) && !HoleAt(s.h, s.q.tail))
    ensures MovesOn(s, Step(s, StepWorker))
  {
    if s.worker.Dispatch? {
      DispatchStepsOn(s);
    } else if s.q.tail < s.q.head {
      WorkerFetches(s);
    } else {
      WorkerFinishes(s);
    }
  }

  lemma WriterMovesOn(s: State, i: nat)
    requires Inv(s) && Inv(Step(s, StepWriter(i))) && i < |s.writers|
    requires !s.writers[i].Idle? && !Stuck(s.q, s.writers[i])
    ensures MovesOn(s, Step(s, StepWriter(i)))
  {
    WriterAdvances(s, i);
  }

  /** Some thread can move on. */
  lemma SomeoneMovesOn(s: State) returns (a: Action)
    requires Inv(s) && !s.q.closed && StaysOpen(s)
    requires s.worker.Dispatch? || (!Quiescent(s) && !HoleAt(s.h, s.q.tail))
    ensures (a.StepWriter? || a.StepWorker?) && Inv(Step(s, a)) && StaysOpen(Step(s, a)) && MovesOn(s, Step(s, a))
  {
    if s.worker.Dispatch? || Waiting(s) {
      a := StepWorker;
      StepKeepsInv(s, a);
      WorkerMovesOn(s);
    } else {
      var i :| 0 <= i < |s.writers| && !s.writers[i].Idle? && !Stuck(s.q, s.writers[i]);
      a := StepWriter(i);
      StepKeepsInv(s, a);
      WriterMovesOn(s, i);
    }
    StepStaysOpen(s, a);
  }

  lemma {:induction false} Drains(s: State) returns (schedule: seq<Action>)
    requires Inv(s) && NoHole(s.h) && !s.q.closed && StaysOpen(s)
    ensures OnlySteps(schedule) && Quiescent(Run(s, schedule))
    decreases WritersLeft(s.writers, |s.writers|), s.q.head - s.q.tail, WorkerLeft(s.q, s.worker)
  {
    if Quiescent(s) {
      schedule := [];
    } else {
      var a := SomeoneMovesOn(s);
      var rest := Drains(Step(s, a));
      Prefixed(s, a, rest);
      schedule := [a] + rest;
    }
  }

  /** In every run, as long as the queue is open and no claim was abandoned, the threads can run
      to a state in which every call has returned and every record was dispatched exactly once. */
  lemma CanAlwaysDrain(cap: nat, writers: nat, schedule: seq<Action>) returns (rest: seq<Action>)
    requires cap > 0
    requires var s := After(cap, writers, schedule); !s.q.closed && NoHole(s.h)
    ensures OnlySteps(rest) && Quiescent(Run(After(cap, writers, schedule), rest))
  {
    Reachable(cap, writers, schedule);
    LeavesClosedOnly(Init(cap, writers), schedule);
    rest := Drains(After(cap, writers, schedule));
  }

  /** Everything below n has been handed to the dispatcher. */
  predicate HandedOver(s: State, n: nat) { s.q.tail >= n && !s.worker.Dispatch? }

  /** Positions before the first hole can always be dispatched. */
  lemma {:induction false} Reaches(s: State, n: nat) returns (schedule: seq<Action>)
    requires Inv(s) && !s.q.closed && StaysOpen(s) && n <= |s.h.claims| && NoHoleBelow(s.h, n)
    ensures OnlySteps(schedule) && HandedOver(Run(s, schedule), n)
    decreases WritersLeft(s.writers, |s.writers|), s.q.head - s.q.tail, WorkerLeft(s.q, s.worker)
  {
    if HandedOver(s, n) {
      schedule := [];
    } else {
      var a := SomeoneMovesOn(s);
      var rest := Reaches(Step(s, a), n);
      Prefixed(s, a, rest);
      schedule := [a] + rest;
    }
  }

  /** After the worker has left with claims unconsumed no run ever gets there. */
  lemma {:induction false} StrandedForever(s: State, rest: seq<Action>)
    requires s.q.Valid() && s.worker.Exited? && s.q.head > s.q.tail
    ensures !Quiescent(Run(s, rest))
    decreases |rest|
  {
    if rest == [] {
    } else {
      StrandedForever(Step(s, rest[0]), rest[1..]);
    }
  }
}
