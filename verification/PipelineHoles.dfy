/** What an abandoned claim does to the queue: the worker never gets past it, and puts that are
    accepted behind it are never dispatched, although the queue is meant to fall back to
    dispatching by the callers. */
module PipelineHoles {
  import opened AsyncPipeline
  import opened PipelineInvariant
  import opened PipelineWriters
  import opened PipelineWorker
  import opened PipelineTheorems
  import opened PipelineShutdown
  import opened PipelineProgress

  /** A hole stays a hole. */
  lemma StepKeepsHole(s: State, a: Action, p: nat)
    requires Inv(s) && HoleAt(s.h, p)
    ensures HoleAt(Step(s, a).h, p)
  {
    if a.StepWriter? && a.writer < |s.writers| {
      assert WriterOk(s.q, s.h, a.writer, s.writers[a.writer]) && CallOk(s.h, a.writer, s.writers[a.writer]);
      WriterExtends(s.q, s.h, a.writer, s.writers[a.writer]);
    }
  }

  lemma {:induction false} RunKeepsHole(s: State, rest: seq<Action>, p: nat)
    requires Inv(s) && HoleAt(s.h, p)
    ensures HoleAt(Run(s, rest).h, p)
    decreases |rest|
  {
    if rest == [] {
    } else {
      StepKeepsInv(s, rest[0]);
      StepKeepsHole(s, rest[0], p);
      RunKeepsHole(Step(s, rest[0]), rest[1..], p);
    }
  }

  /** In every continuation the worker stays before the hole and nobody dispatches a record that
      is queued behind it. */
  lemma LostBehindHole(s: State, rest: seq<Action>, p: nat, c: nat)
    requires Inv(s) && HoleAt(s.h, p) && c < |s.h.fates| && s.h.fates[c].Queued? && s.h.fates[c].pos > p
    ensures var t := Run(s, rest); t.q.tail <= p && ByWorker(t, c) == 0 && ByCaller(t, c) == 0
  {
    RunKeepsQueued(s, rest, c);
    RunKeepsHole(s, rest, p);
    var t := Run(s, rest);
    Dispatches(t, c);
    assert !Done(t.h.claims[p]);
  }

  lemma DispatchedBeforeHole(s: State, c: nat) returns (rest: seq<Action>)
    requires Inv(s) && !s.q.closed && StaysOpen(s) && c in s.h.accepted
    requires c < |s.h.fates| && s.h.fates[c].Queued? && NoHoleBelow(s.h, s.h.fates[c].pos)
    ensures OnlySteps(rest) && ByWorker(Run(s, rest), c) == 1
  {
    var n := s.h.fates[c].pos;
    assert FateOk(s.h, s.writers, c);
    assert NoHoleBelow(s.h, n + 1);
    rest := Reaches(s, n + 1);
    RunKeepsQueued(s, rest, c);
    Dispatches(Run(s, rest), c);
  }

  /** In an open queue an accepted record can still be dispatched, by steps of the threads that
      are there, exactly when no claim below it was abandoned. */
  lemma DispatchableIff(cap: nat, writers: nat, schedule: seq<Action>, c: nat)
    requires cap > 0 && !After(cap, writers, schedule).q.closed && c in After(cap, writers, schedule).h.accepted
    ensures var s := After(cap, writers, schedule);
      c < |s.h.fates| && s.h.fates[c].Queued? &&
      ((exists rest :: OnlySteps(rest) && ByWorker(Run(s, rest), c) == 1) <==> NoHoleBelow(s.h, s.h.fates[c].pos))
  {
    var s := After(cap, writers, schedule);
    Reachable(cap, writers, schedule);
    LeavesClosedOnly(Init(cap, writers), schedule);
    var n := s.h.fates[c].pos;
    if NoHoleBelow(s.h, n) {
      var rest := DispatchedBeforeHole(s, c);
    } else {
      var p :| 0 <= p < n && HoleAt(s.h, p);
      forall rest ensures ByWorker(Run(s, rest), c) == 0 {
        LostBehindHole(s, rest, p, c);
      }
    }
  }

  // ---- a writer that gives up ----

  predicate Waits(s: State, i: nat, c: nat, p: nat, stalls: nat)
  {
    s.q.Valid() && i < |s.writers| && s.writers[i] == WaitTail(c, p, s.q.tail, stalls) &&
    s.q.tail <= p - s.q.cap && p < |s.h.claims|
  }

  /** While the tail stands still a waiting writer abandons its claim after its allowance of
      stalled turns. */
  lemma {:induction false} WaiterAbandons(s: State, i: nat, c: nat, p: nat, stalls: nat)
    requires Waits(s, i, c, p, stalls) && stalls <= MAX_STALLS
    ensures Run(s, Repeat(StepWriter(i), MAX_STALLS - stalls + 1)) ==
            s.(h := s.h.Resolve(p, Abandoned), writers := s.writers[i := Fallback(c)])
    decreases MAX_STALLS - stalls
  {
    var n := MAX_STALLS - stalls;
    RepeatStep(s, StepWriter(i), n);
    var t := Step(s, StepWriter(i));
    if stalls == MAX_STALLS {
      assert Repeat(StepWriter(i), 0) == [];
    } else {
      assert t == s.(writers := s.writers[i := WaitTail(c, p, s.q.tail, stalls + 1)]);
      WaiterAbandons(t, i, c, p, stalls + 1);
      assert t.writers[i := Fallback(c)] == s.writers[i := Fallback(c)];
    }
  }

  /** The steps of writer i in a schedule. */
  function Polls(schedule: seq<Action>, i: nat): nat
    decreases |schedule|
  {
    if schedule == [] then 0 else (if schedule[0] == StepWriter(i) then 1 else 0) + Polls(schedule[1..], i)
  }

  /** Writer i can look n times at the tail without giving up its claim on p. */
  predicate Patient(q: Queue, pc: WriterPc, p: nat, n: nat)
  {
    pc.WaitTail? && pc.pos == p && (if pc.lastTail < q.tail then n <= MAX_STALLS + 1 else pc.stalls + n <= MAX_STALLS)
  }

  /** ... or has stopped waiting for it. */
  ghost predicate KeepsClaim(s: State, i: nat, p: nat, n: nat)
  {
    && i < |s.writers| && p < |s.h.claims| && s.h.claims[p].writer == i
    && (Done(s.h.claims[p]) || Patient(s.q, s.writers[i], p, n) ||
        (s.h.claims[p].status.Pending? && Filling(s.writers[i]) && s.writers[i].pos == p))
  }

  lemma OwnStepKeepsClaim(s: State, i: nat, p: nat, n: nat)
    requires Inv(s) && KeepsClaim(s, i, p, n) && n > 0
    ensures KeepsClaim(Step(s, StepWriter(i)), i, p, n - 1)
  {
    assert WriterOk(s.q, s.h, i, s.writers[i]) && CallOk(s.h, i, s.writers[i]);
    WriterExtends(s.q, s.h, i, s.writers[i]);
  }

  lemma OtherStepKeepsClaim(s: State, a: Action, i: nat, p: nat, n: nat)
    requires Inv(s) && KeepsClaim(s, i, p, n) && a != StepWriter(i)
    ensures KeepsClaim(Step(s, a), i, p, n)
  {
    if a.StepWriter? && a.writer < |s.writers| {
      assert WriterOk(s.q, s.h, a.writer, s.writers[a.writer]) && CallOk(s.h, a.writer, s.writers[a.writer]);
      WriterExtends(s.q, s.h, a.writer, s.writers[a.writer]);
    }
  }

  lemma {:induction false} ClaimIsKept(s: State, rest: seq<Action>, i: nat, p: nat, n: nat)
    requires Inv(s) && KeepsClaim(s, i, p, n) && Polls(rest, i) <= n
    ensures !HoleAt(Run(s, rest).h, p)
    decreases |rest|
  {
    if rest == [] {
    } else {
      StepKeepsInv(s, rest[0]);
      if rest[0] == StepWriter(i) {
        OwnStepKeepsClaim(s, i, p, n);
        ClaimIsKept(Step(s, rest[0]), rest[1..], i, p, n - 1);
      } else {
        OtherStepKeepsClaim(s, rest[0], i, p, n);
        ClaimIsKept(Step(s, rest[0]), rest[1..], i, p, n);
      }
    }
  }

  /** A claim is not abandoned before its allowance is used up: a waiting writer that has counted some
      stalls looks again as often as is left of a million, and more than a million times once the tail
      has moved since its last look, whatever the other threads do. */
  lemma NotAbandonedEarly(cap: nat, writers: nat, schedule: seq<Action>, rest: seq<Action>, i: nat)
    requires cap > 0 && i < |After(cap, writers, schedule).writers|
    requires var s := After(cap, writers, schedule); var pc := s.writers[i];
      pc.WaitTail? && if pc.lastTail < s.q.tail then Polls(rest, i) <= 1_000_001
                      else pc.stalls + Polls(rest, i) <= 1_000_000
    ensures var s := After(cap, writers, schedule); !HoleAt(Run(s, rest).h, s.writers[i].pos)
  {
    var s := After(cap, writers, schedule);
    Reachable(cap, writers, schedule);
    assert WriterOk(s.q, s.h, i, s.writers[i]);
    ClaimIsKept(s, rest, i, s.writers[i].pos, Polls(rest, i));
  }

  // ---- a put that is accepted ----

  /** The put of call c, at a position from n on, finds room as long as it runs alone. */
  predicate Succeeding(s: State, i: nat, c: nat, n: nat)
  {
    && s.q.Valid() && i < |s.writers| && c < |s.h.fates| && n <= |s.h.claims| == s.q.head
    && s.q.tail <= s.q.head
    && var pc := s.writers[i];
       match pc
       case CheckClosed(_) => pc.call == c && !s.q.closed && s.q.head - s.q.tail < s.q.cap
       case LoadTail(_) => pc.call == c && s.q.head - s.q.tail < s.q.cap
       case LoadHead(_, t) => pc.call == c && t == s.q.tail && s.q.head - s.q.tail < s.q.cap
       case FetchAdd(_) => pc.call == c && s.q.head - s.q.tail < s.q.cap
       case Recheck(_, p) => pc.call == c && n <= p && s.q.tail <= p < s.q.tail + s.q.cap && p < s.q.head
       case BeginCopy(_, p, tomb) => pc.call == c && n <= p < s.q.head && !tomb
       case EndCopy(_, p, tomb) => pc.call == c && n <= p < s.q.head && !tomb
       case Publish(_, p, tomb) => pc.call == c && n <= p < s.q.head && !tomb
       case Signal(_, p, tomb) => pc.call == c && n <= p && !tomb && s.h.fates[c] == Queued(p)
       case Post(_, p, tomb) => pc.call == c && n <= p && !tomb && s.h.fates[c] == Queued(p)
       case _ => false
  }

  /** The claim the writer has still to take. */
  function Unclaimed(pc: WriterPc): nat
  {
    if pc.CheckClosed? || pc.LoadTail? || pc.LoadHead? || pc.FetchAdd? then 1 else 0
  }

  /** Claims are never taken back or given to another call, and what was accepted stays so. */
  predicate SameCalls(h: History, h': History)
  {
    |h.claims| <= |h'.claims| && h.accepted <= h'.accepted &&
    forall q :: 0 <= q < |h.claims| ==> h'.claims[q].call == h.claims[q].call
  }

  /** What the other threads see of it. */
  predicate PutDone(s: State, t: State, i: nat, c: nat, n: nat)
  {
    && i < |s.writers| == |t.writers| && t.writers == s.writers[i := Idle]
    && t.q.tail == s.q.tail && t.q.cap == s.q.cap && t.q.closed == s.q.closed && t.worker == s.worker
    && SameCalls(s.h, t.h) && |t.h.fates| == |s.h.fates|
    && |t.h.claims| == |s.h.claims| + Unclaimed(s.writers[i])
    && c in t.h.accepted && c < |t.h.fates| && t.h.fates[c].Queued? && t.h.fates[c].pos >= n
  }

  lemma SucceedingStep(s: State, i: nat, c: nat, n: nat)
    requires Succeeding(s, i, c, n)
    ensures var t := Step(s, StepWriter(i));
      PutDone(s, t, i, c, n) ||
      (Succeeding(t, i, c, n) && WriterLeft(t.writers[i]) < WriterLeft(s.writers[i]) && Passed(s, t, i))
  {
  }

  predicate Passed(s: State, t: State, i: nat)
  {
    && i < |s.writers| == |t.writers| && t.writers == s.writers[i := t.writers[i]]
    && t.q.tail == s.q.tail && t.q.cap == s.q.cap && t.q.closed == s.q.closed && t.worker == s.worker
    && SameCalls(s.h, t.h) && |t.h.fates| == |s.h.fates|
    && |t.h.claims| + Unclaimed(t.writers[i]) == |s.h.claims| + Unclaimed(s.writers[i])
  }

  /** Such a put, left to run, returns 0. */
  lemma {:induction false} PutSucceeds(s: State, i: nat, c: nat, n: nat) returns (k: nat)
    requires Succeeding(s, i, c, n)
    ensures PutDone(s, Run(s, Repeat(StepWriter(i), k)), i, c, n)
    decreases WriterLeft(s.writers[i])
  {
    SucceedingStep(s, i, c, n);
    var t := Step(s, StepWriter(i));
    if PutDone(s, t, i, c, n) {
      k := 1;
      RepeatStep(s, StepWriter(i), 0);
      assert Repeat(StepWriter(i), 0) == [];
    } else {
      var m := PutSucceeds(t, i, c, n);
      RepeatStep(s, StepWriter(i), m);
      k := m + 1;
    }
  }

  /** Behind a hole a new call is accepted whenever the claims fit the capacity, and then its
      record is lost in every continuation. */
  lemma AcceptedBehindHole(s: State, i: nat, p: nat) returns (put: seq<Action>)
    requires Inv(s) && HoleAt(s.h, p) && i < |s.writers| && s.writers[i].Idle? && !s.q.closed
    requires s.q.head - s.q.tail < s.q.cap
    ensures var c, t := |s.h.fates|, Run(s, put);
      c in t.h.accepted && t.writers == s.writers && t.worker == s.worker && t.q.closed == s.q.closed &&
      forall rest :: Run(t, rest).q.tail <= p && ByWorker(Run(t, rest), c) == 0 && ByCaller(Run(t, rest), c) == 0
  {
    var c := |s.h.fates|;
    var u := Step(s, StartCall(i, true));
    StepKeepsInv(s, StartCall(i, true));
    StepKeepsHole(s, StartCall(i, true), p);
    assert Succeeding(u, i, c, |s.h.claims|);
    var k := PutSucceeds(u, i, c, |s.h.claims|);
    var steps := Repeat(StepWriter(i), k);
    put := [StartCall(i, true)] + steps;
    assert put[1..] == steps;
    var t := Run(s, put);
    assert t == Run(u, steps);
    RunKeepsInv(u, steps);
    RunKeepsHole(u, steps, p);
    assert t.writers == s.writers;
    forall rest ensures Run(t, rest).q.tail <= p && ByWorker(Run(t, rest), c) == 0 && ByCaller(Run(t, rest), c) == 0 {
      LostBehindHole(t, rest, p, c);
    }
  }

  // ---- a hole is reachable ----

  predicate AllIdle(ws: seq<WriterPc>) { forall i :: 0 <= i < |ws| ==> ws[i].Idle? }

  /** Published claims are consumed by the worker alone. */
  lemma {:induction false} ConsumeTo(s: State, p: nat) returns (k: nat)
    requires Inv(s) && AllIdle(s.writers) && !s.q.closed && StaysOpen(s) && p <= |s.h.claims|
    requires forall q :: s.q.tail <= q < p ==> Done(s.h.claims[q])
    ensures var t := Run(s, Repeat(StepWorker, k));
      t.q.tail >= p && t.q.head == s.q.head && t.q.cap == s.q.cap && t.writers == s.writers &&
      t.h.claims == s.h.claims && t.q.closed == s.q.closed && !Leaving(t.worker)
    decreases s.q.head - s.q.tail, WorkerLeft(s.q, s.worker)
  {
    if s.q.tail >= p {
      k := 0;
      assert Repeat(StepWorker, 0) == [];
    } else {
      PublishedIsFetched(s);
      FetchOne(s.q, s.h, s.worker);
      var t := Step(s, StepWorker);
      StepKeepsInv(s, StepWorker);
      var m := ConsumeTo(t, p);
      RepeatStep(s, StepWorker, m);
      k := m + 1;
    }
  }

  lemma PublishedIsFetched(s: State)
    requires Inv(s) && AllIdle(s.writers) && !s.q.closed && StaysOpen(s) && s.q.tail < s.q.head
    requires Done(s.h.claims[s.q.tail])
    ensures CanFetch(s.q, s.h, s.worker)
  {
    assert s.worker.SemWait? && s.q.parked ==> Waking(s.q, s.h, s.writers, s.q.tail);
  }

  lemma FetchOne(q: Queue, h: History, pc: WorkerPc)
    requires CanFetch(q, h, pc) && !q.closed && !Leaving(pc)
    ensures Nearer(q, pc, WorkerStep(q, h.delivered, pc)) && WorkerStep(q, h.delivered, pc).q.closed == q.closed
    ensures !Leaving(WorkerStep(q, h.delivered, pc).pc)
  {
    if pc.LoadSeq? || pc.CopyOut? {
      SlotStepsOn(q, h, pc);
    } else if InBatch(pc) {
      BatchStepsOn(q, h, pc);
    } else {
      WaitStepsOn(q, h, pc);
    }
  }

  /** A queue of capacity two before the worker does anything. */
  predicate Early(s: State, pcs: seq<WriterPc>, calls: nat, claims: nat)
  {
    && s.q.Valid() && s.q.cap == 2 && s.q.tail == 0 && !s.q.closed && s.q.head == |s.h.claims| == claims
    && |s.h.fates| == calls && s.writers == pcs && s.worker == LoadHead1
    && forall q :: 0 <= q < claims ==> s.h.claims[q].call == q
  }

  lemma EnterPut(s: State, i: nat, pcs: seq<WriterPc>, calls: nat) returns (actions: seq<Action>)
    requires Early(s, pcs, calls, 0) && i < |pcs| && pcs[i].Idle?
    ensures Early(Run(s, actions), pcs[i := FetchAdd(calls)], calls + 1, 0)
  {
    actions := [StartCall(i, true), StepWriter(i), StepWriter(i), StepWriter(i)];
    FourActions(s, StartCall(i, true), StepWriter(i), StepWriter(i), StepWriter(i));
  }

  lemma TakeClaim(s: State, i: nat, pcs: seq<WriterPc>, calls: nat, n: nat)
    requires Early(s, pcs, calls, n) && i < |pcs| && pcs[i] == FetchAdd(n)
    ensures Early(Step(s, StepWriter(i)), pcs[i := Recheck(n, n)], calls, n + 1)
  {
  }

  lemma OneAction(s: State, a: Action)
    requires s.q.Valid()
    ensures Run(s, [a]) == Step(s, a)
  {
    assert [a][1..] == [];
  }

  /** Extends a run that starts with an empty queue. */
  lemma Extend(schedule: seq<Action>, more: seq<Action>) returns (longer: seq<Action>)
    ensures After(2, 3, longer) == Run(After(2, 3, schedule), more)
  {
    longer := schedule + more;
    RunConcat(Init(2, 3), schedule, more);
  }

  /** Three writers pass the check of an empty queue of capacity two and claim. */
  lemma ThreeClaims() returns (schedule: seq<Action>)
    ensures Early(After(2, 3, schedule), [Recheck(0, 0), Recheck(1, 1), Recheck(2, 2)], 3, 3)
  {
    schedule := ThreeEnter();
    TakeClaim(After(2, 3, schedule), 0, [FetchAdd(0), FetchAdd(1), FetchAdd(2)], 3, 0);
    OneAction(After(2, 3, schedule), StepWriter(0));
    schedule := Extend(schedule, [StepWriter(0)]);
    TakeClaim(After(2, 3, schedule), 1, [Recheck(0, 0), FetchAdd(1), FetchAdd(2)], 3, 1);
    OneAction(After(2, 3, schedule), StepWriter(1));
    schedule := Extend(schedule, [StepWriter(1)]);
    TakeClaim(After(2, 3, schedule), 2, [Recheck(0, 0), Recheck(1, 1), FetchAdd(2)], 3, 2);
    OneAction(After(2, 3, schedule), StepWriter(2));
    schedule := Extend(schedule, [StepWriter(2)]);
  }

  lemma ThreeEnter() returns (schedule: seq<Action>)
    ensures Early(After(2, 3, schedule), [FetchAdd(0), FetchAdd(1), FetchAdd(2)], 3, 0)
  {
    schedule := [];
    assert Early(After(2, 3, []), [Idle, Idle, Idle], 0, 0);
    var more := EnterPut(After(2, 3, schedule), 0, [Idle, Idle, Idle], 0);
    schedule := Extend(schedule, more);
    more := EnterPut(After(2, 3, schedule), 1, [FetchAdd(0), Idle, Idle], 1);
    schedule := Extend(schedule, more);
    more := EnterPut(After(2, 3, schedule), 2, [FetchAdd(0), FetchAdd(1), Idle], 2);
    schedule := Extend(schedule, more);
  }

  /** The third finds the queue full and waits. */
  lemma ThirdWaits() returns (schedule: seq<Action>)
    ensures Early(After(2, 3, schedule), [Recheck(0, 0), Recheck(1, 1), WaitTail(2, 2, 0, 0)], 3, 3)
  {
    schedule := ThreeClaims();
    OneAction(After(2, 3, schedule), StepWriter(2));
    schedule := Extend(schedule, [StepWriter(2)]);
  }

  lemma GivesUp(s: State)
    requires Early(s, [Recheck(0, 0), Recheck(1, 1), WaitTail(2, 2, 0, 0)], 3, 3)
    ensures var t := Run(s, Repeat(StepWriter(2), MAX_STALLS + 1));
      Early(t, [Recheck(0, 0), Recheck(1, 1), Fallback(2)], 3, 3) && HoleAt(t.h, 2)
  {
    assert Waits(s, 2, 2, 2, 0);
    WaiterAbandons(s, 2, 2, 2, 0);
  }

  lemma FallsBack(s: State)
    requires Early(s, [Recheck(0, 0), Recheck(1, 1), Fallback(2)], 3, 3) && HoleAt(s.h, 2)
    ensures var t := Step(s, StepWriter(2));
      Early(t, [Recheck(0, 0), Recheck(1, 1), Idle], 3, 3) && HoleAt(t.h, 2)
  {
  }

  /** The third gives up. */
  lemma ThirdAbandons() returns (schedule: seq<Action>)
    ensures Early(After(2, 3, schedule), [Recheck(0, 0), Recheck(1, 1), Idle], 3, 3)
    ensures HoleAt(After(2, 3, schedule).h, 2)
  {
    schedule := ThirdWaits();
    GivesUp(After(2, 3, schedule));
    schedule := Extend(schedule, Repeat(StepWriter(2), MAX_STALLS + 1));
    FallsBack(After(2, 3, schedule));
    OneAction(After(2, 3, schedule), StepWriter(2));
    schedule := Extend(schedule, [StepWriter(2)]);
  }

  predicate Holed(s: State, pcs: seq<WriterPc>)
  {
    Early(s, pcs, 3, 3) && HoleAt(s.h, 2)
  }

  lemma PublishOne(s: State, i: nat, pcs: seq<WriterPc>) returns (k: nat)
    requires Inv(s) && Holed(s, pcs) && i < 2 && i < |pcs| && pcs[i] == Recheck(i, i)
    ensures var t := Run(s, Repeat(StepWriter(i), k));
      Inv(t) && Holed(t, pcs[i := Idle]) && i in t.h.accepted && s.h.accepted <= t.h.accepted
  {
    k := PutSucceeds(s, i, i, 0);
    RunKeepsHole(s, Repeat(StepWriter(i), k), 2);
    RunKeepsInv(s, Repeat(StepWriter(i), k));
  }

  /** The other two publish. */
  lemma TwoPublish() returns (schedule: seq<Action>)
    ensures var s := After(2, 3, schedule);
      Inv(s) && Holed(s, [Idle, Idle, Idle]) && 0 in s.h.accepted && 1 in s.h.accepted
  {
    schedule := ThirdAbandons();
    Reachable(2, 3, schedule);
    var k := PublishOne(After(2, 3, schedule), 0, [Recheck(0, 0), Recheck(1, 1), Idle]);
    schedule := Extend(schedule, Repeat(StepWriter(0), k));
    k := PublishOne(After(2, 3, schedule), 1, [Idle, Recheck(1, 1), Idle]);
    schedule := Extend(schedule, Repeat(StepWriter(1), k));
  }

  lemma BothPublished(s: State)
    requires Inv(s) && Holed(s, [Idle, Idle, Idle]) && 0 in s.h.accepted && 1 in s.h.accepted
    ensures Done(s.h.claims[0]) && Done(s.h.claims[1])
  {
    assert FateOk(s.h, s.writers, 0) && FateOk(s.h, s.writers, 1);
  }

  /** The worker consumes both and stands before the hole, with room behind it. */
  lemma StandsBeforeHole() returns (schedule: seq<Action>)
    ensures var s := After(2, 3, schedule);
      HoleAt(s.h, 2) && |s.writers| == 3 && AllIdle(s.writers) && !s.q.closed && !Leaving(s.worker) &&
      s.q.head - s.q.tail < s.q.cap
  {
    schedule := TwoPublish();
    var s := After(2, 3, schedule);
    BothPublished(s);
    var k := ConsumeTo(s, 2);
    schedule := Extend(schedule, Repeat(StepWorker, k));
  }

  /** The queue does not fall back to its callers: some run accepts a record that no continuation
      dispatches, with the worker alive and the queue open. */
  lemma AcceptedIsLost() returns (schedule: seq<Action>, c: nat)
    ensures var s := After(2, 3, schedule);
      c in s.h.accepted && !s.q.closed && !s.worker.Exited? &&
      forall rest :: ByWorker(Run(s, rest), c) == 0 && ByCaller(Run(s, rest), c) == 0
  {
    schedule := StandsBeforeHole();
    Reachable(2, 3, schedule);
    var t := After(2, 3, schedule);
    c := |t.h.fates|;
    var put := AcceptedBehindHole(t, 0, 2);
    schedule := Extend(schedule, put);
  }
}
