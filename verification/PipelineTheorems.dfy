/** What the asynchronous pipeline guarantees, over every schedule. */
module PipelineTheorems {
  import opened AsyncPipeline
  import opened PipelineInvariant
  import opened PipelineWriters
  import opened PipelineWorker
  import opened RingIndex

  /** The state after a schedule, started by `mpsc_queue_create`. */
  function After(cap: nat, writers: nat, schedule: seq<Action>): State
    requires cap > 0
  {
    Run(Init(cap, writers), schedule)
  }

  // ---- delivery: order, completeness, exactly once ----

  /** What the worker has dispatched is, in claim order, the records published in the first
      k claims, where k counts every consumed position once no batch is being dispatched. */
  lemma DeliveredInClaimOrder(cap: nat, writers: nat, schedule: seq<Action>)
    requires cap > 0
    ensures var s := After(cap, writers, schedule);
      exists k :: 0 <= k <= s.q.tail <= |s.h.claims| && s.h.delivered == Skim(s.h.claims[..k]) &&
        (s.q.processing || k == s.q.tail)
  {
    Reachable(cap, writers, schedule);
    var s := After(cap, writers, schedule);
    var k := Handed(s.q, s.worker);
    assert 0 <= k <= s.q.tail;
  }

  /** Published claims and queued calls refer to each other. */
  ghost predicate Linked(cs: seq<Claim>, fates: seq<Fate>, c: nat)
  {
    && c < |fates|
    && (forall p :: 0 <= p < |cs| && cs[p].status.Published? ==>
          cs[p].call < |fates| && fates[cs[p].call] == Queued(p))
    && (fates[c].Queued? ==>
          fates[c].pos < |cs| && cs[fates[c].pos].status.Published? && cs[fates[c].pos].call == c)
  }

  lemma LinkedAt(cs: seq<Claim>, fates: seq<Fate>, c: nat, p: nat)
    requires Linked(cs, fates, c) && p < |cs|
    ensures cs[p].status.Published? && cs[p].call == c <==> fates[c] == Queued(p)
  {
  }

  /** How often the records of call c were published in a prefix of the claims. */
  lemma {:induction false} SkimCount(cs: seq<Claim>, fates: seq<Fate>, c: nat, n: nat)
    requires n <= |cs| && Linked(cs, fates, c)
    ensures multiset(Skim(cs[..n]))[Record(c)] == if fates[c].Queued? && fates[c].pos < n then 1 else 0
    decreases n
  {
    if n == 0 {
    } else {
      SkimCount(cs, fates, c, n - 1);
      LinkedAt(cs, fates, c, n - 1);
      CountStep(cs, n - 1, c);
    }
  }

  lemma CountStep(cs: seq<Claim>, n: nat, c: nat)
    requires n < |cs|
    ensures multiset(Skim(cs[..n + 1]))[Record(c)] ==
            multiset(Skim(cs[..n]))[Record(c)] + if cs[n].status.Published? && cs[n].call == c then 1 else 0
  {
    SkimStep(cs, n);
    CountLast(Skim(cs[..n]), cs[n].call, c);
  }

  lemma CountLast(cells: seq<Cell>, call: nat, c: nat)
    ensures multiset(cells + [Record(call)])[Record(c)] == multiset(cells)[Record(c)] + if call == c then 1 else 0
  {
    assert multiset(cells + [Record(call)]) == multiset(cells) + multiset{Record(call)};
  }

  lemma {:induction false} SkimmedAreRecords(cs: seq<Claim>, n: nat)
    requires n <= |cs|
    ensures forall x :: x in Skim(cs[..n]) ==> x.Record?
    decreases n
  {
    if n == 0 {
    } else {
      SkimmedAreRecords(cs, n - 1);
      SkimStep(cs, n - 1);
    }
  }

  lemma {:induction false} DirectCount(direct: seq<nat>, fates: seq<Fate>, c: nat, n: nat)
    requires n <= |direct| && c < |fates|
    requires forall k :: 0 <= k < |direct| ==> direct[k] < |fates| && fates[direct[k]] == Direct(k)
    requires fates[c].Direct? ==> fates[c].index < |direct| && direct[fates[c].index] == c
    ensures multiset(direct[..n])[c] == if fates[c].Direct? && fates[c].index < n then 1 else 0
    decreases n
  {
    if n == 0 {
    } else {
      DirectCount(direct, fates, c, n - 1);
      assert direct[..n] == direct[..n - 1] + [direct[n - 1]];
    }
  }

  /** Times the record of call c was dispatched by the worker, and by its own caller. */
  function ByWorker(s: State, c: nat): nat { multiset(s.h.delivered)[Record(c)] }
  function ByCaller(s: State, c: nat): nat { multiset(s.h.direct)[c] }

  lemma Dispatches(s: State, c: nat)
    requires Inv(s) && c < |s.h.fates|
    ensures ByWorker(s, c) == if s.h.fates[c].Queued? && s.h.fates[c].pos < Handed(s.q, s.worker) then 1 else 0
    ensures ByCaller(s, c) == if s.h.fates[c].Direct? then 1 else 0
    ensures forall x :: x in s.h.delivered ==> x.Record?
  {
    assert FateOk(s.h, s.writers, c);
    SkimCount(s.h.claims, s.h.fates, c, Handed(s.q, s.worker));
    SkimmedAreRecords(s.h.claims, Handed(s.q, s.worker));
    DirectCount(s.h.direct, s.h.fates, c, |s.h.direct|);
    assert s.h.direct[..|s.h.direct|] == s.h.direct;
  }

  /** No writer is inside a call, nothing is queued and no batch is being dispatched. */
  predicate Quiescent(s: State)
  {
    s.q.head == s.q.tail && !s.q.processing && forall i :: 0 <= i < |s.writers| ==> s.writers[i].Idle?
  }

  /** Every call of `log_async_write_for` hands its record to the dispatcher at most once,
      and exactly once when the pipeline is quiescent; the worker does it for the calls that
      returned CLOG_OK and the caller for the others.  The worker never dispatches a
      half-written slot or a tombstone. */
  lemma DispatchedExactlyOnce(cap: nat, writers: nat, schedule: seq<Action>, c: nat)
    requires cap > 0 && c < |After(cap, writers, schedule).h.fates|
    ensures var s := After(cap, writers, schedule);
      && ByWorker(s, c) + ByCaller(s, c) <= 1
      && (Quiescent(s) ==>
            && ByWorker(s, c) == (if c in s.h.accepted then 1 else 0)
            && ByCaller(s, c) == (if c in s.h.accepted then 0 else 1))
      && (forall x :: x in s.h.delivered ==> x.Record?)
  {
    Reachable(cap, writers, schedule);
    var s := After(cap, writers, schedule);
    Dispatches(s, c);
    assert FateOk(s.h, s.writers, c);
  }

  /** A record reaches the worker's dispatcher only if its put returned 0, or has published
      it and can only return 0; a put that returned -1 leaves its record to the caller. */
  lemma OnlyAcceptedAreDelivered(cap: nat, writers: nat, schedule: seq<Action>, c: nat)
    requires cap > 0 && c < |After(cap, writers, schedule).h.fates|
    ensures var s := After(cap, writers, schedule);
      && (ByWorker(s, c) > 0 ==> c in s.h.accepted || exists i :: 0 <= i < |s.writers| && Returning(s.writers[i], c))
      && (c in s.h.direct || (exists i :: 0 <= i < |s.writers| && s.writers[i] == Fallback(c)) ==>
            ByWorker(s, c) == 0 && c !in s.h.accepted)
  {
    Reachable(cap, writers, schedule);
    var s := After(cap, writers, schedule);
    Dispatches(s, c);
    assert FateOk(s.h, s.writers, c);
    if i :| 0 <= i < |s.writers| && s.writers[i] == Fallback(c) {
      assert CallOk(s.h, i, s.writers[i]);
    }
  }

  // ---- slots ----

  /** The writer is between the start of its copy into the slot and the store of `seq`. */
  predicate Filling(pc: WriterPc)
  {
    pc.BeginCopy? || pc.EndCopy? || pc.Publish?
  }

  /** A slot is filled only once the position a lap earlier has been consumed. */
  lemma FillingInWindow(s: State, i: nat)
    requires Inv(s) && i < |s.writers| && Filling(s.writers[i])
    ensures MayWrite(s.q, s.h, i, s.writers[i].call, s.writers[i].pos)
    ensures s.writers[i].pos - s.q.cap < s.q.tail <= s.writers[i].pos
  {
    assert WriterOk(s.q, s.h, i, s.writers[i]);
  }

  /** Two writers never fill the same slot. */
  lemma FillApart(s: State, i: nat, j: nat)
    requires Inv(s) && i < j < |s.writers| && Filling(s.writers[i]) && Filling(s.writers[j])
    ensures s.q.Index(s.writers[i].pos) != s.q.Index(s.writers[j].pos)
  {
    FillingInWindow(s, i);
    FillingInWindow(s, j);
    if s.q.Index(s.writers[i].pos) == s.q.Index(s.writers[j].pos) {
      SameSlotInWindow(s.q.tail, s.writers[i].pos, s.writers[j].pos, s.q.cap);
    }
  }

  /** The slot that the worker copies out is complete, and nobody fills it. */
  ghost predicate ReadsAlone(s: State)
    requires s.q.Valid()
  {
    s.worker.CopyOut? ==>
      var p := s.worker.tail + |s.worker.batch|;
      && p < |s.h.claims| && Done(s.h.claims[p])
      && s.q.slots[s.q.Index(p)] == Slot(p + 1, CellFor(s.h.claims[p]))
      && forall i :: 0 <= i < |s.writers| && Filling(s.writers[i]) ==> s.q.Index(s.writers[i].pos) != s.q.Index(p)
  }

  lemma ReadsAreExclusive(s: State)
    requires Inv(s)
    ensures ReadsAlone(s)
  {
    if s.worker.CopyOut? {
      forall i | 0 <= i < |s.writers| && Filling(s.writers[i])
        ensures s.q.Index(s.writers[i].pos) != s.q.Index(s.worker.tail + |s.worker.batch|)
      {
        FillingInWindow(s, i);
        SlotIsFree(s.q, s.h, s.writers[i].pos);
      }
    }
  }

  /** In every reachable state two writers never fill the same slot; a position is filled only
      once the position a lap earlier has been consumed; and while the worker copies a record
      out, no writer fills that slot and the slot holds the published record, whole. */
  lemma SlotsAreExclusive(cap: nat, writers: nat, schedule: seq<Action>)
    requires cap > 0
    ensures var s := After(cap, writers, schedule);
      && (forall i, j :: 0 <= i < j < |s.writers| && Filling(s.writers[i]) && Filling(s.writers[j]) ==>
            s.q.Index(s.writers[i].pos) != s.q.Index(s.writers[j].pos))
      && (forall i :: 0 <= i < |s.writers| && Filling(s.writers[i]) ==>
            s.writers[i].pos - cap < s.q.tail <= s.writers[i].pos)
      && ReadsAlone(s)
  {
    Reachable(cap, writers, schedule);
    var s := After(cap, writers, schedule);
    forall i | 0 <= i < |s.writers| && Filling(s.writers[i])
      ensures s.writers[i].pos - cap < s.q.tail <= s.writers[i].pos
    {
      FillingInWindow(s, i);
    }
    forall i, j | 0 <= i < j < |s.writers| && Filling(s.writers[i]) && Filling(s.writers[j])
      ensures s.q.Index(s.writers[i].pos) != s.q.Index(s.writers[j].pos)
    {
      FillApart(s, i, j);
    }
    ReadsAreExclusive(s);
  }

  /** The claimed and unconsumed positions never exceed the capacity by more than the number
      of writers minus one, although the claim is unconditional and never rolled back. */
  lemma ClaimsAreBounded(cap: nat, writers: nat, schedule: seq<Action>)
    requires cap > 0 && writers > 0
    ensures var s := After(cap, writers, schedule); s.q.head - s.q.tail <= cap + writers - 1
  {
    Reachable(cap, writers, schedule);
  }

  // ---- flush ----

  predicate StartsNoFlush(schedule: seq<Action>)
  {
    forall k :: 0 <= k < |schedule| ==> !schedule[k].StartFlush?
  }

  lemma {:induction false} NeedIsKept(s: State, schedule: seq<Action>)
    requires s.q.Valid() && !s.flusher.NoFlush? && StartsNoFlush(schedule)
    ensures var f := Run(s, schedule).flusher; !f.NoFlush? && f.need == s.flusher.need
    decreases |schedule|
  {
    if schedule == [] {
    } else {
      assert !schedule[0].StartFlush?;
      NeedIsKept(Step(s, schedule[0]), schedule[1..]);
    }
  }

  /** `log_async_flush_for` is a barrier: when it returns, every record whose call had
      returned CLOG_OK before the flush began has been handed to the dispatcher. */
  lemma FlushIsBarrier(cap: nat, writers: nat, before: seq<Action>, during: seq<Action>)
    requires cap > 0 && StartsNoFlush(during)
    requires var s := After(cap, writers, before); s.flusher.NoFlush? || s.flusher.Flushed?
    ensures var s := After(cap, writers, before);
      var t := Run(Step(s, StartFlush), during);
      t.flusher.Flushed? ==> forall c :: c in s.h.accepted ==> Record(c) in t.h.delivered
  {
    var s := After(cap, writers, before);
    Reachable(cap, writers, before);
    StepKeepsInv(s, StartFlush);
    RunKeepsInv(Step(s, StartFlush), during);
    NeedIsKept(Step(s, StartFlush), during);
  }

  // ---- wake-ups ----

  function Repeat(a: Action, n: nat): seq<Action>
  {
    seq(n, _ => a)
  }

  lemma RepeatStep(s: State, a: Action, n: nat)
    requires s.q.Valid()
    ensures Run(s, Repeat(a, n + 1)) == Run(Step(s, a), Repeat(a, n))
  {
    assert Repeat(a, n + 1)[1..] == Repeat(a, n);
  }

  /** Steps a writer holding the oldest claim takes to reach its wake-up attempt. */
  function Distance(pc: WriterPc): nat
  {
    match pc
    case Recheck(_, _) => 4
    case WaitTail(_, _, _, _) => 4
    case BeginCopy(_, _, _) => 3
    case EndCopy(_, _, _) => 2
    case Publish(_, _, _) => 1
    case _ => 0
  }

  /** A writer that holds the oldest unconsumed claim cannot abandon it: left to run, it
      wakes a parked worker. */
  lemma {:induction false} OldestClaimWakes(s: State, i: nat)
    requires s.q.Valid() && i < |s.writers| && Unsignalled(s.writers[i], s.q.tail) && s.q.parked
    ensures Run(s, Repeat(StepWriter(i), Distance(s.writers[i]) + 2)).q.items > s.q.items
    decreases Distance(s.writers[i])
  {
    var a := StepWriter(i);
    var n := Distance(s.writers[i]);
    var s' := Step(s, a);
    RepeatStep(s, a, n + 1);
    if n > 0 {
      assert Unsignalled(s'.writers[i], s'.q.tail) && Distance(s'.writers[i]) == n - 1;
      OldestClaimWakes(s', i);
    } else {
      RepeatStep(s', a, 0);
      assert s'.writers[i].Post?;
    }
  }

  /** Who wakes a blocked worker, and in how many steps. */
  lemma WakerOf(s: State) returns (i: nat, n: nat)
    requires Inv(s) && s.worker.SemWait? && s.q.items == 0 && s.q.tail < s.q.head
    ensures i < |s.writers| && n <= 6 && (s.writers[i].Post? || Unsignalled(s.writers[i], s.q.tail))
    ensures Run(s, Repeat(StepWriter(i), n)).q.items > 0
  {
    if s.q.parked {
      assert Waking(s.q, s.h, s.writers, s.q.tail);
      i := s.h.claims[s.q.tail].writer;
      n := Distance(s.writers[i]) + 2;
      OldestClaimWakes(s, i);
    } else {
      i :| 0 <= i < |s.writers| && s.writers[i].Post?;
      n := 1;
      PostWakes(s, i);
    }
  }

  lemma PostWakes(s: State, i: nat)
    requires s.q.Valid() && i < |s.writers| && s.writers[i].Post?
    ensures Run(s, Repeat(StepWriter(i), 1)).q.items > 0
  {
    OneRepeat(s, StepWriter(i));
    PostStep(s, i);
  }

  lemma OneRepeat(s: State, a: Action)
    requires s.q.Valid()
    ensures Run(s, Repeat(a, 1)) == Step(s, a)
  {
    assert Repeat(a, 1)[1..] == [];
  }

  lemma PostStep(s: State, i: nat)
    requires s.q.Valid() && i < |s.writers| && s.writers[i].Post?
    ensures Step(s, StepWriter(i)).q.items > 0
  {
  }

  /** No lost wake-up.  Whenever the worker is blocked on an empty semaphore although a claim
      is unconsumed, some writer has won the park flag and not posted, or still has its signal
      ahead of it, and that writer on its own brings the semaphore up within six steps. */
  lemma BlockedWorkerIsWoken(cap: nat, writers: nat, schedule: seq<Action>)
    requires cap > 0
    ensures var s := After(cap, writers, schedule);
      s.worker.SemWait? && s.q.items == 0 && s.q.tail < s.q.head ==>
        exists i, n :: 0 <= i < |s.writers| && 0 <= n <= 6
          && (s.writers[i].Post? || Unsignalled(s.writers[i], s.q.tail))
          && Run(s, Repeat(StepWriter(i), n)).q.items > 0
  {
    Reachable(cap, writers, schedule);
    var s := After(cap, writers, schedule);
    if s.worker.SemWait? && s.q.items == 0 && s.q.tail < s.q.head {
      var i, n := WakerOf(s);
    }
  }

  /** A blocked worker has nothing to do: with no writer inside a call, every claim has been
      consumed; and a close always leaves a post for it. */
  lemma BlockedWorkerIsIdle(cap: nat, writers: nat, schedule: seq<Action>)
    requires cap > 0
    ensures var s := After(cap, writers, schedule);
      s.worker.SemWait? && s.q.items == 0 ==>
        && ((forall i :: 0 <= i < |s.writers| ==> s.writers[i].Idle?) ==> s.q.head == s.q.tail)
        && (s.q.closed ==> s.closer.PostClose?)
  {
    Reachable(cap, writers, schedule);
    var s := After(cap, writers, schedule);
    if s.worker.SemWait? && s.q.items == 0 && s.q.tail < s.q.head && s.q.parked {
      assert Waking(s.q, s.h, s.writers, s.q.tail);
    }
  }

  // ---- batches and fallbacks ----

  /** The batch array holds 64 records. */
  predicate BatchInArray(pc: WorkerPc)
  {
    match pc
    case LoadSeq(_, _, batch) => |batch| <= 64
    case CopyOut(_, _, batch) => |batch| < 64
    case Advance(_, batch) => |batch| <= 64
    case Dispatch(batch, _) => |batch| <= 64
    case _ => true
  }

  lemma {:induction false} BatchStaysInArray(s: State, schedule: seq<Action>)
    requires s.q.Valid() && BatchInArray(s.worker)
    ensures BatchInArray(Run(s, schedule).worker)
    decreases |schedule|
  {
    if schedule == [] {
    } else {
      BatchStaysInArray(Step(s, schedule[0]), schedule[1..]);
    }
  }

  /** After every schedule the worker's batch fits its array, and a record that is about to be copied
      has a place in it. */
  lemma BatchFits(cap: nat, writers: nat, schedule: seq<Action>)
    requires cap > 0
    ensures BatchInArray(After(cap, writers, schedule).worker)
  {
    BatchStaysInArray(Init(cap, writers), schedule);
  }

  /** A call whose clone fails, and a call on a closed queue, hand the record to the dispatcher
      themselves and touch the queue no further. */
  lemma FailedCallIsDirect(s: State, i: nat, cloned: bool) returns (n: nat)
    requires s.q.Valid() && i < |s.writers| && s.writers[i].Idle? && (!cloned || s.q.closed)
    ensures var t := Run(Step(s, StartCall(i, cloned)), Repeat(StepWriter(i), n));
      t.writers == s.writers && t.q == s.q && t.h.direct == s.h.direct + [|s.h.fates|] &&
      t.h.accepted == s.h.accepted && t.h.claims == s.h.claims
  {
    var u := Step(s, StartCall(i, cloned));
    if cloned {
      n := 2;
      RepeatStep(u, StepWriter(i), 1);
      OneRepeat(Step(u, StepWriter(i)), StepWriter(i));
    } else {
      n := 1;
      OneRepeat(u, StepWriter(i));
    }
    assert Run(u, Repeat(StepWriter(i), n)).writers == s.writers;
  }
}
