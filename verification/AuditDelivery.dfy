/** What becomes of a recorded event while the audit logger keeps running. */
module AuditDelivery {
  import opened Histories
  import opened AuditPipeline

  // ---------- The event that is recorded ----------

  /** Recording adds exactly one event: the caller's payload, with the caller's identifier and
      timestamp where there are any and the generated ones where there are none. */
  lemma {:induction false} RecordedAsGiven(run: History, e: Event, uuid: string, now: int) returns (r: Event)
    requires Valid(Then(run, Record(e, uuid, now)))
    ensures Recorded(Then(run, Record(e, uuid, now))) == Recorded(run) + multiset{r}
    ensures r.payload == e.payload
    ensures (e.id != "" ==> r.id == e.id) && (e.id == "" ==> r.id == uuid)
    ensures (e.timestamp != 0 ==> r.timestamp == e.timestamp) && (e.timestamp == 0 ==> r.timestamp == now)
  {
    r := Enriched(e, uuid, now);
  }

  /** An event goes to the channel exactly while there is room in it, behind those already there;
      otherwise its producer goes on to write it to the sinks itself, starting with the first. */
  lemma {:induction false} RoutedByRoom(s: State, e: Event, uuid: string, now: int)
    requires Enabled(s, Record(e, uuid, now))
    ensures var t := Next(s, Record(e, uuid, now));
            if |s.buffer| < s.capacity then
              |t.buffer| == |s.buffer| + 1 && t.buffer[..|s.buffer|] == s.buffer && t.producers == s.producers &&
              t.buffer[|s.buffer|].payload == e.payload
            else
              t.buffer == s.buffer && |t.producers| == |s.producers| + 1 &&
              t.producers[..|s.producers|] == s.producers &&
              t.producers[|s.producers|].event.payload == e.payload && t.producers[|s.producers|].next == 0
  {}

  /** In every reachable state a flush in progress has something to flush: neither ticker nor shutdown
      calls the sinks with an empty batch. */
  lemma {:induction false} FlushesAreNonempty(run: History)
    requires Valid(run)
    ensures After(run).worker.Flushing? ==> After(run).batch != []
  {
    if run.Then? { FlushesAreNonempty(run.before); }
  }

  // ---------- What a sink keeps ----------

  lemma {:induction false} OfferAllStores(log: Log, batch: seq<Event>, stored: nat)
    requires stored <= |batch|
    ensures Stored(OfferAll(log, batch, stored)) == Stored(log) + multiset(batch[..stored])
  {
    if batch != [] {
      var n := |batch| - 1;
      if stored <= n {
        OfferAllStores(log, batch[..n], stored);
        assert batch[..n][..stored] == batch[..stored];
      } else {
        OfferAllStores(log, batch[..n], n);
        AllWritten(log, batch[..n], n, stored);
        assert batch[..n][..n] == batch[..n] && batch[..stored] == batch[..n] + [batch[n]];
      }
    }
  }

  lemma {:induction false} AllWritten(log: Log, batch: seq<Event>, a: nat, b: nat)
    requires |batch| <= a && |batch| <= b
    ensures OfferAll(log, batch, a) == OfferAll(log, batch, b)
  {
    if batch != [] { AllWritten(log, batch[..|batch| - 1], a, b); }
  }

  /** A sink keeps what its writes store and nothing else: the stored part of a batch, or the event
      of a successful direct write. */
  lemma {:induction false} WritesStoreExactly(s: State, step: Step, i: nat)
    requires Enabled(s, step) && i < |s.sinks|
    ensures |Next(s, step).sinks| == |s.sinks|
    ensures Stored(Next(s, step).sinks[i]) ==
            match step
            case WriteBatch(stored) =>
              if i == s.worker.next then Stored(s.sinks[i]) + multiset(s.batch[..stored]) else Stored(s.sinks[i])
            case WriteSync(p, ok) =>
              if i == s.producers[p].next && ok then Stored(s.sinks[i]) + multiset{s.producers[p].event}
              else Stored(s.sinks[i])
            case _ => Stored(s.sinks[i])
  {
    if step.WriteBatch? && i == s.worker.next { OfferAllStores(s.sinks[i], s.batch, step.stored); }
  }

  // ---------- Delivery by the ticker ----------

  /** `later` continues `run` by ticks and flushing alone. */
  ghost predicate FlushSteps(run: History, later: History) {
    later == run ||
    (later.Then? && (later.step.Tick? || later.step.WriteBatch? || later.step.EndFlush?) &&
     FlushSteps(run, later.before))
  }

  /** `later` continues `run` by the worker's own steps short of shutdown. */
  ghost predicate WorkerSteps(run: History, later: History) {
    later == run ||
    (later.Then? && (later.step.Receive? || later.step.Tick? || later.step.WriteBatch? || later.step.EndFlush?) &&
     WorkerSteps(run, later.before))
  }

  lemma {:induction false} FlushStepsJoin(a: History, b: History, c: History)
    requires FlushSteps(a, b) && FlushSteps(b, c)
    ensures FlushSteps(a, c)
  {
    if c != b { FlushStepsJoin(a, b, c.before); }
  }

  lemma {:induction false} WorkerStepsJoin(a: History, b: History, c: History)
    requires WorkerSteps(a, b) && (WorkerSteps(b, c) || FlushSteps(b, c))
    ensures WorkerSteps(a, c)
  {
    if c != b { WorkerStepsJoin(a, b, c.before); }
  }

  /** The rest of a flush, whatever part of the batch each sink stores. */
  lemma {:induction false} FlushEnds(run: History, stored: nat -> nat) returns (later: History)
    requires Valid(run) && After(run).worker.Flushing?
    requires forall i :: 0 <= i < |After(run).sinks| ==> stored(i) <= |After(run).batch|
    ensures Valid(later) && FlushSteps(run, later)
    ensures var s, t := After(run), After(later);
            t == s.(sinks := t.sinks, batch := [], flushed := s.flushed + s.batch,
                    worker := if s.worker.last then Closing else Idle)
    decreases |After(run).sinks| - After(run).worker.next
  {
    var s := After(run);
    if s.worker.next < |s.sinks| {
      var run' := Then(run, WriteBatch(stored(s.worker.next)));
      later := FlushEnds(run', stored);
      FlushStepsJoin(run, run', later);
    } else {
      later := Then(run, EndFlush);
    }
  }

  /** An event the worker holds needs no further traffic and no shutdown: from every reachable state
      with an idle worker, whatever the sinks will store, a tick and the flush it starts leave the
      batch empty and the worker idle, and have offered every sink exactly that batch, in order. */
  lemma {:induction false} TickDelivers(run: History, stored: nat -> nat) returns (later: History)
    requires Valid(run) && After(run).worker.Idle?
    requires forall i :: 0 <= i < |After(run).sinks| ==> stored(i) <= |After(run).batch|
    ensures Valid(later) && FlushSteps(run, later)
    ensures var s, t := After(run), After(later);
            |t.sinks| == |s.sinks| && t.batch == [] && t.worker.Idle? && t.buffer == s.buffer &&
            forall i :: 0 <= i < |s.sinks| ==> FromWorker(t.sinks[i]) == FromWorker(s.sinks[i]) + s.batch
  {
    var s := After(run);
    if s.batch == [] {
      later := run;
    } else {
      var ticked := Then(run, Tick);
      assert FlushSteps(run, run) && FlushSteps(run, ticked);
      later := FlushEnds(ticked, stored);
      FlushStepsJoin(run, ticked, later);
    }
    OffersGrow(run, later);
  }

  /** Both states satisfy the invariant, so the offers of a completed flush are its batch. */
  lemma {:induction false} OffersGrow(run: History, later: History)
    requires Valid(run) && Valid(later) && After(run).worker.Idle? && After(later).worker.Idle?
    requires After(later).flushed == After(run).flushed + After(run).batch
    requires |After(later).sinks| == |After(run).sinks| || FlushSteps(run, later)
    ensures |After(later).sinks| == |After(run).sinks|
    ensures forall i :: 0 <= i < |After(run).sinks| ==>
              FromWorker(After(later).sinks[i]) == FromWorker(After(run).sinks[i]) + After(run).batch
  {
    if FlushSteps(run, later) { SinksStay(run, later); }
    InvariantHolds(run);
    InvariantHolds(later);
    forall i: nat | i < |After(run).sinks|
      ensures FromWorker(After(later).sinks[i]) == FromWorker(After(run).sinks[i]) + After(run).batch
    {
      assert SinkInvariant(After(run), i) && SinkInvariant(After(later), i);
    }
  }

  lemma {:induction false} SinksStay(run: History, later: History)
    requires Valid(run) && Valid(later) && FlushSteps(run, later)
    ensures |After(later).sinks| == |After(run).sinks|
  {
    if later != run { SinksStay(run, later.before); }
  }

  // ---------- Everything buffered gets out ----------

  lemma {:induction false} BecomesIdle(run: History) returns (later: History)
    requires Valid(run) && !After(run).closed
    ensures Valid(later) && WorkerSteps(run, later)
    ensures var s, t := After(run), After(later);
            t.worker.Idle? && !t.closed && t.buffer == s.buffer && t.viaBuffer == s.viaBuffer
  {
    InvariantHolds(run);
    later := run;
    if After(run).worker.Flushing? {
      later := FlushEnds(run, _ => 0);
      WorkerStepsJoin(run, run, later);
    }
  }

  lemma {:induction false} LastBatchOut(run: History) returns (later: History)
    requires Valid(run) && After(run).worker.Idle? && After(run).buffer == []
    ensures Valid(later) && WorkerSteps(run, later)
    ensures var t := After(later);
            t.worker.Idle? && t.batch == [] && t.buffer == [] && t.viaBuffer == After(run).viaBuffer
  {
    later := run;
    if After(run).batch != [] {
      var ticked := Then(run, Tick);
      assert WorkerSteps(run, run) && WorkerSteps(run, ticked);
      later := FlushEnds(ticked, _ => 0);
      WorkerStepsJoin(run, ticked, later);
    }
  }

  lemma {:induction false} AllOffered(run: History)
    requires Valid(run) && After(run).worker.Idle? && After(run).batch == [] && After(run).buffer == []
    ensures var t := After(run); forall i :: 0 <= i < |t.sinks| ==> FromWorker(t.sinks[i]) == t.viaBuffer
  {
    InvariantHolds(run);
    var t := After(run);
    forall i: nat | i < |t.sinks| ensures FromWorker(t.sinks[i]) == t.viaBuffer {
      assert SinkInvariant(t, i);
    }
  }

  /** While the logger runs, the worker can always catch up: from every reachable state before the
      drain, its own steps alone lead to one in which channel and batch are empty and every sink has
      been offered every buffered event, in recording order. */
  lemma {:induction false} WorkerCatchesUp(run: History) returns (later: History)
    requires Valid(run) && !After(run).closed
    ensures Valid(later) && WorkerSteps(run, later)
    ensures var t := After(later);
            t.worker.Idle? && t.batch == [] && t.buffer == [] && t.viaBuffer == After(run).viaBuffer &&
            forall i :: 0 <= i < |t.sinks| ==> FromWorker(t.sinks[i]) == t.viaBuffer
    decreases |After(run).buffer|
  {
    var idle := BecomesIdle(run);
    if After(idle).buffer != [] {
      var received := Then(idle, Receive);
      assert WorkerSteps(idle, idle) && WorkerSteps(idle, received);
      WorkerStepsJoin(run, idle, received);
      later := WorkerCatchesUp(received);
      WorkerStepsJoin(run, received, later);
    } else {
      later := LastBatchOut(idle);
      WorkerStepsJoin(run, idle, later);
      AllOffered(later);
    }
  }
}
