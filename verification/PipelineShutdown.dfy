/** What `mpsc_queue_close` and the worker's exit guarantee, and what they do not. */
module PipelineShutdown {
  import opened AsyncPipeline
  import opened PipelineInvariant
  import opened PipelineWriters
  import opened PipelineWorker
  import opened PipelineTheorems

  lemma {:induction false} RunAppend(s: State, schedule: seq<Action>, a: Action)
    requires s.q.Valid()
    ensures Run(s, schedule + [a]) == Step(Run(s, schedule), a)
    decreases |schedule|
  {
    if schedule == [] {
      assert [a][1..] == [];
      assert [] + [a] == [a];
    } else {
      assert (schedule + [a])[1..] == schedule[1..] + [a];
      RunAppend(Step(s, schedule[0]), schedule[1..], a);
    }
  }

  /** The worker still carries the value of its last load of `head`. */
  predicate CarriesHead(pc: WorkerPc)
  {
    pc.LoadTail1? || pc.CheckClosed1? || pc.LoadTail2? || pc.CheckClosed2? || pc.SemWait? || pc.UnparkReturn? ||
    pc.Exited?
  }

  /** Action k of the schedule is the load of `head` by `mpsc_queue_wait_for_items` that read n. */
  ghost predicate HeadLoad(cap: nat, writers: nat, schedule: seq<Action>, k: nat, n: nat)
    requires cap > 0
  {
    && k < |schedule| && schedule[k].StepWorker?
    && var s := After(cap, writers, schedule[..k]);
       (s.worker.LoadHead1? || s.worker.LoadHead2?) && s.q.head == n
  }

  lemma {:induction false} HeadWasLoaded(cap: nat, writers: nat, schedule: seq<Action>) returns (k: nat)
    requires cap > 0 && CarriesHead(After(cap, writers, schedule).worker)
    ensures HeadLoad(cap, writers, schedule, k, After(cap, writers, schedule).worker.head)
    decreases |schedule|
  {
    var n := |schedule| - 1;
    var prefix, a := schedule[..n], schedule[n];
    var s := After(cap, writers, prefix);
    assert schedule == prefix + [a];
    RunAppend(Init(cap, writers), prefix, a);
    if a.StepWorker? && (s.worker.LoadHead1? || s.worker.LoadHead2?) {
      k := n;
    } else {
      StillCarries(s, a);
      k := HeadWasLoaded(cap, writers, prefix);
      assert schedule[..k] == prefix[..k];
    }
  }

  lemma StillCarries(s: State, a: Action)
    requires s.q.Valid() && CarriesHead(Step(s, a).worker)
    requires !(a.StepWorker? && (s.worker.LoadHead1? || s.worker.LoadHead2?))
    ensures CarriesHead(s.worker) && s.worker.head == Step(s, a).worker.head
  {
  }

  /** When `mpsc_queue_wait_for_items` returns -1 the worker has dispatched exactly the records
      published at positions below n, where n is what its deciding load of `head` read; so an
      accepted record is delivered if and only if its position was claimed before that load. */
  lemma ExitDeliversWhatWasClaimed(cap: nat, writers: nat, schedule: seq<Action>)
    requires cap > 0 && After(cap, writers, schedule).worker.Exited?
    ensures var s := After(cap, writers, schedule);
      var n := s.worker.head;
      && (exists k: nat :: HeadLoad(cap, writers, schedule, k, n))
      && n == s.q.tail <= |s.h.claims|
      && s.h.delivered == Skim(s.h.claims[..n])
      && (forall p :: 0 <= p < n ==> Done(s.h.claims[p]))
      && (forall c :: c in s.h.accepted ==>
            c < |s.h.fates| && s.h.fates[c].Queued? && (Record(c) in s.h.delivered <==> s.h.fates[c].pos < n))
  {
    var s := After(cap, writers, schedule);
    Reachable(cap, writers, schedule);
    var k := HeadWasLoaded(cap, writers, schedule);
    forall c | c in s.h.accepted
      ensures c < |s.h.fates| && s.h.fates[c].Queued? && (Record(c) in s.h.delivered <==>
        s.h.fates[c].pos < s.worker.head)
    {
      Dispatches(s, c);
    }
  }

  /** What is queued stays where it is. */
  lemma StepKeepsQueued(s: State, a: Action, c: nat)
    requires Inv(s) && c < |s.h.fates| && s.h.fates[c].Queued?
    ensures c < |Step(s, a).h.fates| && Step(s, a).h.fates[c] == s.h.fates[c]
  {
    if a.StepWriter? && a.writer < |s.writers| {
      assert WriterOk(s.q, s.h, a.writer, s.writers[a.writer]) && CallOk(s.h, a.writer, s.writers[a.writer]);
      WriterExtends(s.q, s.h, a.writer, s.writers[a.writer]);
    }
  }

  lemma {:induction false} RunKeepsQueued(s: State, rest: seq<Action>, c: nat)
    requires Inv(s) && c < |s.h.fates| && s.h.fates[c].Queued?
    ensures var t := Run(s, rest); Inv(t) && c < |t.h.fates| && t.h.fates[c] == s.h.fates[c]
    decreases |rest|
  {
    if rest == [] {
    } else {
      StepKeepsInv(s, rest[0]);
      StepKeepsQueued(s, rest[0], c);
      RunKeepsQueued(Step(s, rest[0]), rest[1..], c);
    }
  }

  lemma {:induction false} ExitIsFinal(s: State, rest: seq<Action>)
    requires s.q.Valid() && s.worker.Exited?
    ensures Run(s, rest).worker == s.worker && Run(s, rest).q.tail == s.q.tail
    decreases |rest|
  {
    if rest == [] {
    } else {
      ExitIsFinal(Step(s, rest[0]), rest[1..]);
    }
  }

  /** What is queued when the worker has exited is dispatched in no continuation. */
  lemma LostAfterExit(s: State, rest: seq<Action>, c: nat)
    requires Inv(s) && s.worker.Exited? && c < |s.h.fates| && s.h.fates[c].Queued? && s.h.fates[c].pos >= s.q.tail
    ensures var t := Run(s, rest); ByWorker(t, c) == 0 && ByCaller(t, c) == 0
  {
    RunKeepsQueued(s, rest, c);
    ExitIsFinal(s, rest);
    Dispatches(Run(s, rest), c);
  }

  /** The writer is outside `mpsc_queue_try_put`, or has not yet looked at `closed`. */
  predicate NotPutting(pc: WriterPc)
  {
    pc.Idle? || pc.CheckClosed? || pc.Fallback?
  }

  /** The queue is closed, nobody can claim any more, and the worker has read the final head. */
  ghost predicate Draining(s: State, n: nat)
  {
    && s.q.closed && s.q.head == n
    && (forall i :: 0 <= i < |s.writers| ==> NotPutting(s.writers[i]))
    && (CarriesHead(s.worker) ==> s.worker.head == n)
  }

  lemma DrainingStep(s: State, a: Action, n: nat)
    requires s.q.Valid() && Draining(s, n)
    ensures Draining(Step(s, a), n) && Step(s, a).h.accepted == s.h.accepted
  {
  }

  lemma {:induction false} DrainingKept(s: State, schedule: seq<Action>, n: nat)
    requires s.q.Valid() && Draining(s, n)
    ensures Draining(Run(s, schedule), n) && Run(s, schedule).h.accepted == s.h.accepted
    decreases |schedule|
  {
    if schedule == [] {
    } else {
      DrainingStep(s, schedule[0], n);
      DrainingKept(Step(s, schedule[0]), schedule[1..], n);
    }
  }

  /** Shutdown loses nothing when no put is in flight: if the queue is closed, no writer is
      inside `mpsc_queue_try_put` and the worker calls `mpsc_queue_wait_for_items`, then
      whenever the worker exits the queue is fully drained and every record whose call
      returned CLOG_OK has been dispatched. */
  lemma CloseDrains(cap: nat, writers: nat, before: seq<Action>, rest: seq<Action>)
    requires cap > 0
    requires var s := After(cap, writers, before);
      s.q.closed && s.worker.LoadHead1? && forall i :: 0 <= i < |s.writers| ==> NotPutting(s.writers[i])
    ensures var t := Run(After(cap, writers, before), rest);
      t.worker.Exited? ==> t.q.head == t.q.tail && forall c :: c in t.h.accepted ==> Record(c) in t.h.delivered
  {
    var s := After(cap, writers, before);
    Reachable(cap, writers, before);
    RunKeepsInv(s, rest);
    DrainingKept(s, rest, s.q.head);
    var t := Run(s, rest);
    if t.worker.Exited? {
      forall c | c in t.h.accepted ensures Record(c) in t.h.delivered {
        Dispatches(t, c);
      }
    }
  }

  lemma {:induction false} RunConcat(s: State, first: seq<Action>, second: seq<Action>)
    requires s.q.Valid()
    ensures Run(s, first + second) == Run(Run(s, first), second)
    decreases |first|
  {
    if first == [] {
      assert first + second == second;
    } else {
      assert (first + second)[1..] == first[1..] + second;
      RunConcat(Step(s, first[0]), first[1..], second);
    }
  }

  lemma FourActions(s: State, a: Action, b: Action, c: Action, d: Action)
    requires s.q.Valid()
    ensures Run(s, [a, b, c, d]) == Step(Step(Step(Step(s, a), b), c), d)
  {
    assert [] + [a] == [a] && [a] + [b] == [a, b] && [a, b] + [c] == [a, b, c] && [a, b, c] + [d] == [a, b, c, d];
    RunAppend(s, [], a);
    RunAppend(s, [a], b);
    RunAppend(s, [a, b], c);
    RunAppend(s, [a, b, c], d);
  }

  lemma FourSteps(s: State, a: Action)
    requires s.q.Valid()
    ensures Run(s, Repeat(a, 4)) == Step(Step(Step(Step(s, a), a), a), a)
  {
    assert Repeat(a, 4) == [a, a, a, a];
    FourActions(s, a, a, a, a);
  }

  /** Writer 0 alone in a queue of capacity one, with pc as its next action. */
  predicate Alone(s: State, pc: WriterPc, claims: nat)
  {
    && s.q.Valid() && s.q.cap == 1 && s.q.tail == 0 && !s.q.parked
    && s.writers == [pc] && s.q.head == |s.h.claims| == claims && |s.h.fates| == 1
    && s.worker == Exited(0) && s.h.delivered == [] && s.h.direct == []
  }

  lemma ClaimAlone(s: State)
    requires Alone(s, LoadTail(0), 0)
    ensures Alone(Run(s, Repeat(StepWriter(0), 4)), BeginCopy(0, 0, false), 1)
  {
    FourSteps(s, StepWriter(0));
  }

  lemma PublishAlone(s: State)
    requires Alone(s, BeginCopy(0, 0, false), 1)
    ensures var t := Run(s, Repeat(StepWriter(0), 4)); Alone(t, Idle, 1) && 0 in t.h.accepted
  {
    FourSteps(s, StepWriter(0));
  }

  /** The put passes its closed check; then the queue is closed and the worker exits. */
  lemma CloseDuringPut()
    ensures var s := Run(Init(1, 1), [StartCall(0, true), StepWriter(0), StepCloser, StepWorker]);
      Alone(Run(s, [StepWorker, StepWorker]), LoadTail(0), 0)
  {
    FourActions(Init(1, 1), StartCall(0, true), StepWriter(0), StepCloser, StepWorker);
    var s := Run(Init(1, 1), [StartCall(0, true), StepWriter(0), StepCloser, StepWorker]);
    assert s.q.closed && s.worker == LoadTail1(0) && s.writers == [LoadTail(0)];
    assert [StepWorker, StepWorker][1..] == [StepWorker] && [StepWorker][1..] == [];
    assert Run(s, [StepWorker, StepWorker]) == Step(Step(s, StepWorker), StepWorker);
  }

  /** The put goes on, claims and publishes. */
  lemma PutAfterExit() returns (schedule: seq<Action>)
    ensures Alone(After(1, 1, schedule), Idle, 1) && 0 in After(1, 1, schedule).h.accepted
  {
    var start, mid := [StartCall(0, true), StepWriter(0), StepCloser, StepWorker], [StepWorker, StepWorker];
    CloseDuringPut();
    RunConcat(Init(1, 1), start, mid);
    var put := Repeat(StepWriter(0), 4);
    ClaimAlone(After(1, 1, start + mid));
    RunConcat(Init(1, 1), start + mid, put);
    schedule := PublishAfterExit(start + mid + put);
  }

  lemma PublishAfterExit(claimed: seq<Action>) returns (schedule: seq<Action>)
    requires Alone(After(1, 1, claimed), BeginCopy(0, 0, false), 1)
    ensures Alone(After(1, 1, schedule), Idle, 1) && 0 in After(1, 1, schedule).h.accepted
  {
    var put := Repeat(StepWriter(0), 4);
    PublishAlone(After(1, 1, claimed));
    RunConcat(Init(1, 1), claimed, put);
    schedule := claimed + put;
  }

  /** Without that condition the guarantee fails: a put that has passed its closed check when
      the queue is closed can return 0 after the worker has exited, and then nobody dispatches
      its record, however the run goes on. */
  lemma RacingPutIsLost() returns (schedule: seq<Action>)
    ensures var s := After(1, 1, schedule);
      s.worker.Exited? && s.writers == [Idle] && 0 in s.h.accepted &&
      forall rest :: ByWorker(Run(s, rest), 0) == 0 && ByCaller(Run(s, rest), 0) == 0
  {
    schedule := PutAfterExit();
    Reachable(1, 1, schedule);
    var s := After(1, 1, schedule);
    forall rest ensures ByWorker(Run(s, rest), 0) == 0 && ByCaller(Run(s, rest), 0) == 0 {
      LostAfterExit(s, rest, 0);
    }
  }
}
