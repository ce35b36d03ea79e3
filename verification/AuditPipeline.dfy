/** The asynchronous audit logger of internal/audit/logger.go as interleaved steps: producers in
    Record and writeSync, and one worker in flushLoop, flushBatch and the draining shutdown. Each
    write to one sink is a step of its own, so producers and worker interleave between sinks. */
module AuditPipeline {
  import opened Histories

  datatype Event = Event(id: string, timestamp: int, payload: string)

  /** Record fills in a missing identifier and a zero timestamp. */
  function Enriched(e: Event, uuid: string, now: int): Event {
    Event(if e.id == "" then uuid else e.id, if e.timestamp == 0 then now else e.timestamp, e.payload)
  }

  /** One event handed to one sink, by the worker or directly by a producer; `written` is false
      when the sink failed before storing it. */
  datatype Offer = Offer(event: Event, direct: bool, written: bool)

  /** A sink's history of offers, oldest innermost. */
  datatype Log = NoOffers | More(earlier: Log, offer: Offer)

  /** A producer inside writeSync, about to write to sink `next`. */
  datatype Producer = Producer(event: Event, next: nat)

  /** Where the worker is; `last` marks the flush of the shutdown branch. */
  datatype Worker = Idle | Flushing(next: nat, last: bool) | Closing | Stopped

  /** `viaBuffer` and `direct` keep the history of what Record accepted, by route; `flushed` of
      what completed flushes have passed on. */
  datatype State = State(
    capacity: nat, batchSize: nat, sinks: seq<Log>,
    buffer: seq<Event>, batch: seq<Event>, worker: Worker, producers: seq<Producer>,
    cancelled: bool, closed: bool,
    viaBuffer: seq<Event>, flushed: seq<Event>, direct: multiset<Event>)

  datatype Step =
    | Record(event: Event, uuid: string, now: int)
    | Handoff(event: Event, uuid: string, now: int) // the channel send meets a worker already waiting
    | Receive | Tick | Cancel | Drain
    | WriteBatch(stored: nat)                       // how many events of the batch the next sink stored
    | EndFlush | CloseSinks
    | WriteSync(producer: nat, ok: bool)
    | EndSync(producer: nat)

  function NewAuditLogger(batchSize: nat, bufferSize: nat, sinkCount: nat): State {
    State(bufferSize, batchSize, seq(sinkCount, _ => NoOffers), [], [], Idle, [], false, false, [], [], multiset{})
  }

  /** Sending on the closed channel panics in Go, so Record is possible only before the close. */
  predicate Enabled(s: State, step: Step) {
    match step
    case Record(_, _, _) => !s.closed
    case Handoff(_, _, _) => !s.closed && s.worker.Idle? && s.buffer == []
    case Receive => s.worker.Idle? && s.buffer != []
    case Tick => s.worker.Idle?
    case Cancel => true
    case Drain => s.worker.Idle? && s.cancelled
    case WriteBatch(n) => s.worker.Flushing? && s.worker.next < |s.sinks| && n <= |s.batch|
    case EndFlush => s.worker.Flushing? && s.worker.next >= |s.sinks|
    case CloseSinks => s.worker.Closing?
    case WriteSync(p, _) => p < |s.producers| && s.producers[p].next < |s.sinks|
    case EndSync(p) => p < |s.producers| && s.producers[p].next >= |s.sinks|
  }

  /** WriteBatch hands the whole batch over in order; a failing sink stores only a prefix. */
  function OfferAll(log: Log, batch: seq<Event>, stored: nat): Log {
    if batch == [] then log
    else
      var n := |batch| - 1;
      More(OfferAll(log, batch[..n], stored), Offer(batch[n], false, n < stored))
  }

  /** The worker appends to its batch and starts a flush once the batch is full. */
  function Batched(s: State, e: Event): State {
    var batch := s.batch + [e];
    s.(batch := batch, worker := if |batch| >= s.batchSize then Flushing(0, false) else Idle)
  }

  function Next(s: State, step: Step): State
    requires Enabled(s, step)
  {
    match step
    case Record(event, uuid, now) =>
      var e := Enriched(event, uuid, now);
      if |s.buffer| < s.capacity then s.(buffer := s.buffer + [e], viaBuffer := s.viaBuffer + [e])
      else s.(producers := s.producers + [Producer(e, 0)], direct := s.direct + multiset{e})
    case Handoff(event, uuid, now) =>
      var e := Enriched(event, uuid, now);
      Batched(s.(viaBuffer := s.viaBuffer + [e]), e)
    case Receive => Batched(s.(buffer := s.buffer[1..]), s.buffer[0])
    case Tick => if s.batch == [] then s else s.(worker := Flushing(0, false))
    case Cancel => s.(cancelled := true)
    case Drain =>
      var batch := s.batch + s.buffer;
      s.(closed := true, buffer := [], batch := batch, worker := if batch == [] then Closing else Flushing(0, true))
    case WriteBatch(stored) =>
      var i := s.worker.next;
      s.(sinks := s.sinks[i := OfferAll(s.sinks[i], s.batch, stored)], worker := s.worker.(next := i + 1))
    case EndFlush => s.(batch := [], flushed := s.flushed + s.batch, worker := if s.worker.last then Closing else Idle)
    case CloseSinks => s.(worker := Stopped)
    case WriteSync(p, ok) =>
      var Producer(e, i) := s.producers[p];
      s.(sinks := s.sinks[i := More(s.sinks[i], Offer(e, true, ok))], producers := s.producers[p := Producer(e, i + 1)])
    case EndSync(p) => s.(producers := s.producers[..p] + s.producers[p + 1..])
  }

  // ---------- The logger object ----------

  /** The object behind the steps. Each method is one atomic section of the source; FlushBatch and
      WriteSyncAll are the sink loops run without interruption. */
  class AuditLogger {
    const capacity: nat
    const batchSize: nat
    var sinks: seq<Log>
    var buffer: seq<Event>
    var batch: seq<Event>
    var worker: Worker
    var producers: seq<Producer>
    var cancelled: bool
    var closed: bool
    ghost var viaBuffer: seq<Event>
    ghost var flushed: seq<Event>
    ghost var direct: multiset<Event>

    ghost function View(): State
      reads this
    {
      State(capacity, batchSize, sinks, buffer, batch, worker, producers, cancelled, closed, viaBuffer, flushed, direct)
    }

    constructor (batchSize: nat, bufferSize: nat, sinkCount: nat)
      ensures View() == NewAuditLogger(batchSize, bufferSize, sinkCount)
    {
      this.batchSize, capacity := batchSize, bufferSize;
      sinks, buffer, batch := seq(sinkCount, _ => NoOffers), [], [];
      worker, producers, cancelled, closed := Idle, [], false, false;
      viaBuffer, flushed, direct := [], [], multiset{};
    }

    /** A full channel sends the producer into writeSync. */
    method RecordEvent(event: Event, uuid: string, now: int)
      requires Enabled(View(), Record(event, uuid, now))
      modifies this
      ensures View() == Next(old(View()), Record(event, uuid, now))
    {
      var e := event;
      if e.id == "" {
        e := e.(id := uuid);
      }
      if e.timestamp == 0 {
        e := e.(timestamp := now);
      }
      if |buffer| < capacity {
        buffer := buffer + [e];
        viaBuffer := viaBuffer + [e];
      } else {
        producers := producers + [Producer(e, 0)];
        direct := direct + multiset{e};
      }
    }

    method ReceiveEvent()
      requires Enabled(View(), Receive)
      modifies this
      ensures View() == Next(old(View()), Receive)
    {
      batch := batch + [buffer[0]];
      buffer := buffer[1..];
      if |batch| >= batchSize {
        worker := Flushing(0, false);
      }
    }

    method TickFlush()
      requires Enabled(View(), Tick)
      modifies this
      ensures View() == Next(old(View()), Tick)
    {
      if |batch| > 0 {
        worker := Flushing(0, false);
      }
    }

    /** The ctx.Done branch: close the channel and range over what is left in it. */
    method DrainBuffer()
      requires Enabled(View(), Drain)
      modifies this
      ensures View() == Next(old(View()), Drain)
    {
      closed := true;
      while buffer != []
        invariant batch + buffer == old(batch) + old(buffer)
        invariant View() == old(View()).(closed := true, batch := batch, buffer := buffer)
        decreases |buffer|
      {
        batch := batch + [buffer[0]];
        buffer := buffer[1..];
      }
      assert batch == old(batch) + old(buffer);
      worker := if |batch| > 0 then Flushing(0, true) else Closing;
    }

    /** flushBatch, then the reset of the batch: each sink is handed the whole batch, in order, once,
        and stores the first `stored(i)` of it; a failing sink stops nothing. */
    method FlushBatch(stored: nat -> nat)
      requires worker.Flushing? && worker.next == 0
      requires forall i :: 0 <= i < |sinks| ==> stored(i) <= |batch|
      modifies this
      ensures |sinks| == |old(sinks)|
      ensures forall i :: 0 <= i < |sinks| ==> sinks[i] == OfferAll(old(sinks)[i], old(batch), stored(i))
      ensures View() == old(View()).(sinks := sinks, batch := [], flushed := old(flushed) + old(batch),
                                     worker := if old(worker).last then Closing else Idle)
    {
      while worker.next < |sinks|
        invariant worker.Flushing? && worker.next <= |sinks| == |old(sinks)|
        invariant View() == old(View()).(sinks := sinks, worker := Flushing(worker.next, old(worker).last))
        invariant forall i :: 0 <= i < |sinks| ==>
                    sinks[i] == if i < worker.next then OfferAll(old(sinks)[i], batch, stored(i)) else old(sinks)[i]
        decreases |sinks| - worker.next
      {
        var i := worker.next;
        sinks := sinks[i := OfferAll(sinks[i], batch, stored(i))];
        worker := worker.(next := i + 1);
      }
      flushed := flushed + batch;
      batch := [];
      worker := if worker.last then Closing else Idle;
    }

    /** writeSync for the producer that entered last: every sink is offered the event once, whichever
        of them fail. */
    method WriteSyncAll(ok: nat -> bool)
      requires producers != [] && producers[|producers| - 1].next == 0
      modifies this
      ensures |sinks| == |old(sinks)|
      ensures var e := old(producers)[|old(producers)| - 1].event;
              forall i :: 0 <= i < |sinks| ==> sinks[i] == More(old(sinks)[i], Offer(e, true, ok(i)))
      ensures View() == old(View()).(sinks := sinks, producers := old(producers)[..|old(producers)| - 1])
    {
      var event := producers[|producers| - 1].event;
      var others := producers[..|producers| - 1];
      producers := others;
      for i := 0 to |sinks|
        invariant |sinks| == |old(sinks)|
        invariant View() == old(View()).(sinks := sinks, producers := others)
        invariant forall j :: 0 <= j < |sinks| ==>
                    sinks[j] == if j < i then More(old(sinks)[j], Offer(event, true, ok(j))) else old(sinks)[j]
      {
        sinks := sinks[i := More(sinks[i], Offer(event, true, ok(i)))];
      }
    }
  }

  // ---------- Runs ----------

  datatype Setup = Setup(batchSize: nat, bufferSize: nat, sinkCount: nat)

  type History = Run<Setup, Step>

  ghost predicate Valid(run: History)
    decreases run, 0
  {
    match run
    case Start(_) => true
    case Then(before, step) => Valid(before) && Enabled(After(before), step)
  }

  ghost function After(run: History): State
    requires Valid(run)
    decreases run, 1
  {
    match run
    case Start(Setup(batchSize, bufferSize, sinkCount)) => NewAuditLogger(batchSize, bufferSize, sinkCount)
    case Then(before, step) => Next(After(before), step)
  }

  function StepRecords(step: Step): multiset<Event> {
    match step
    case Record(e, uuid, now) => multiset{Enriched(e, uuid, now)}
    case Handoff(e, uuid, now) => multiset{Enriched(e, uuid, now)}
    case _ => multiset{}
  }

  /** The events Record was called with, over the whole run. */
  ghost function Recorded(run: History): multiset<Event> {
    match run
    case Start(_) => multiset{}
    case Then(before, step) => Recorded(before) + StepRecords(step)
  }

  // ---------- What a sink holds ----------

  /** The events the worker offered, in order. */
  function FromWorker(log: Log): seq<Event> {
    match log
    case NoOffers => []
    case More(earlier, o) => if o.direct then FromWorker(earlier) else FromWorker(earlier) + [o.event]
  }

  /** The events producers offered directly. */
  function FromProducers(log: Log): multiset<Event> {
    match log
    case NoOffers => multiset{}
    case More(earlier, o) => if o.direct then FromProducers(earlier) + multiset{o.event} else FromProducers(earlier)
  }

  /** Everything offered. */
  function Offered(log: Log): multiset<Event> {
    match log
    case NoOffers => multiset{}
    case More(earlier, o) => Offered(earlier) + multiset{o.event}
  }

  /** Everything stored. */
  function Stored(log: Log): multiset<Event> {
    match log
    case NoOffers => multiset{}
    case More(earlier, o) => if o.written then Stored(earlier) + multiset{o.event} else Stored(earlier)
  }

  predicate NeverFailed(log: Log) {
    match log
    case NoOffers => true
    case More(earlier, o) => o.written && NeverFailed(earlier)
  }

  lemma {:induction false} OfferAllAdds(log: Log, batch: seq<Event>, stored: nat)
    ensures FromWorker(OfferAll(log, batch, stored)) == FromWorker(log) + batch
    ensures FromProducers(OfferAll(log, batch, stored)) == FromProducers(log)
  {
    if batch == [] {
      assert FromWorker(log) + batch == FromWorker(log);
    } else {
      var n := |batch| - 1;
      OfferAllAdds(log, batch[..n], stored);
      assert FromWorker(log) + batch == FromWorker(log) + batch[..n] + [batch[n]];
    }
  }

  lemma {:induction false} OfferedSplits(log: Log)
    ensures Offered(log) == multiset(FromWorker(log)) + FromProducers(log)
    ensures NeverFailed(log) ==> Stored(log) == Offered(log)
  {
    if log.More? { OfferedSplits(log.earlier); }
  }

  // ---------- The invariant ----------

  /** Events that producers still owe to sink `i`. */
  function Owed(ps: seq<Producer>, i: nat): multiset<Event> {
    if ps == [] then multiset{}
    else if ps[0].next <= i then Owed(ps[1..], i) + multiset{ps[0].event}
    else Owed(ps[1..], i)
  }

  /** The flush in progress has reached sink `i`. */
  predicate Reached(s: State, i: nat) {
    s.worker.Flushing? && i < s.worker.next
  }

  ghost predicate WorkerSide(s: State, i: nat)
    requires i < |s.sinks|
  {
    FromWorker(s.sinks[i]) == if Reached(s, i) then s.flushed + s.batch else s.flushed
  }

  ghost predicate ProducerSide(s: State, i: nat)
    requires i < |s.sinks|
  {
    FromProducers(s.sinks[i]) + Owed(s.producers, i) == s.direct
  }

  ghost predicate SinkInvariant(s: State, i: nat)
    requires i < |s.sinks|
  {
    WorkerSide(s, i) && ProducerSide(s, i)
  }

  function MaxBatch(s: State): int {
    if s.batchSize < 1 then 1 else s.batchSize
  }

  ghost predicate ControlInvariant(s: State) {
    |s.buffer| <= s.capacity &&
    (s.worker.Idle? ==> |s.batch| < MaxBatch(s)) &&
    (s.worker.Flushing? ==> s.worker.next <= |s.sinks|) &&
    (s.closed <==> s.worker.Closing? || s.worker.Stopped? || (s.worker.Flushing? && s.worker.last)) &&
    (s.closed ==> s.cancelled && s.buffer == []) &&
    (s.worker.Closing? || s.worker.Stopped? ==> s.batch == [])
  }

  ghost predicate ProducersInRange(s: State) {
    forall p :: 0 <= p < |s.producers| ==> s.producers[p].next <= |s.sinks|
  }

  ghost predicate Invariant(s: State) {
    ControlInvariant(s) && ProducersInRange(s) && s.flushed + s.batch + s.buffer == s.viaBuffer &&
    forall i: nat :: i < |s.sinks| ==> SinkInvariant(s, i)
  }

  lemma {:induction false} OwedAdd(ps: seq<Producer>, q: Producer, i: nat)
    ensures Owed(ps + [q], i) == Owed(ps, i) + if q.next <= i then multiset{q.event} else multiset{}
    decreases |ps|
  {
    if ps == [] {
      assert ps + [q] == [q];
    } else {
      OwedAdd(ps[1..], q, i);
      assert (ps + [q])[1..] == ps[1..] + [q];
    }
  }

  lemma {:induction false} OwedAdvance(ps: seq<Producer>, p: nat, i: nat)
    requires p < |ps|
    ensures var Producer(e, n) := ps[p];
            Owed(ps, i) == Owed(ps[p := Producer(e, n + 1)], i) + if n == i then multiset{e} else multiset{}
    decreases |ps|
  {
    var Producer(e, n) := ps[p];
    var qs := ps[p := Producer(e, n + 1)];
    if p == 0 {
      assert qs[1..] == ps[1..];
    } else {
      OwedAdvance(ps[1..], p - 1, i);
      assert qs[1..] == ps[1..][p - 1 := Producer(e, n + 1)];
    }
  }

  lemma {:induction false} OwedDone(ps: seq<Producer>, p: nat, i: nat)
    requires p < |ps| && ps[p].next > i
    ensures Owed(ps[..p] + ps[p + 1..], i) == Owed(ps, i)
    decreases |ps|
  {
    var qs := ps[..p] + ps[p + 1..];
    if p == 0 {
      assert qs == ps[1..];
    } else {
      OwedDone(ps[1..], p - 1, i);
      assert qs[1..] == ps[1..][..p - 1] + ps[1..][p..];
    }
  }

  lemma {:induction false} SinksKept(s: State, step: Step)
    requires Enabled(s, step)
    ensures |Next(s, step).sinks| == |s.sinks|
  {}

  lemma {:induction false} WorkerSideStep(s: State, step: Step, i: nat)
    requires ControlInvariant(s) && Enabled(s, step) && i < |s.sinks| && WorkerSide(s, i)
    ensures |Next(s, step).sinks| == |s.sinks| && WorkerSide(Next(s, step), i)
  {
    if step.WriteBatch? {
      OfferAllAdds(s.sinks[i], s.batch, step.stored);
    }
  }

  lemma {:induction false} ProducerSideStep(s: State, step: Step, i: nat)
    requires Enabled(s, step) && i < |s.sinks| && ProducerSide(s, i)
    ensures |Next(s, step).sinks| == |s.sinks| && ProducerSide(Next(s, step), i)
  {
    match step {
      case Record(event, uuid, now) =>
        RecordKeepsSide(s, event, uuid, now, i);
      case WriteBatch(stored) => WriteBatchKeepsSide(s, stored, i);
      case WriteSync(p, ok) => WriteSyncKeepsSide(s, p, ok, i);
      case EndSync(p) => OwedDone(s.producers, p, i);
      case _ =>
    }
  }

  lemma {:induction false} WriteBatchKeepsSide(s: State, stored: nat, i: nat)
    requires Enabled(s, WriteBatch(stored)) && i < |s.sinks| && ProducerSide(s, i)
    ensures ProducerSide(Next(s, WriteBatch(stored)), i)
  {
    OfferAllAdds(s.sinks[i], s.batch, stored);
  }

  lemma {:induction false} RecordKeepsSide(s: State, event: Event, uuid: string, now: int, i: nat)
    requires Enabled(s, Record(event, uuid, now)) && i < |s.sinks| && ProducerSide(s, i)
    ensures ProducerSide(Next(s, Record(event, uuid, now)), i)
  {
    OwedAdd(s.producers, Producer(Enriched(event, uuid, now), 0), i);
  }

  lemma {:induction false} WriteSyncKeepsSide(s: State, p: nat, ok: bool, i: nat)
    requires Enabled(s, WriteSync(p, ok)) && i < |s.sinks| && ProducerSide(s, i)
    ensures ProducerSide(Next(s, WriteSync(p, ok)), i)
  {
    var t := Next(s, WriteSync(p, ok));
    var Producer(e, n) := s.producers[p];
    OwedAdvance(s.producers, p, i);
    if i == n {
      assert FromProducers(t.sinks[i]) == FromProducers(s.sinks[i]) + multiset{e};
    } else {
      assert t.sinks[i] == s.sinks[i];
    }
  }

  lemma {:induction false} ControlInvariantStep(s: State, step: Step)
    requires ControlInvariant(s) && Enabled(s, step)
    ensures ControlInvariant(Next(s, step))
  {}

  lemma {:induction false} ProducersInRangeStep(s: State, step: Step)
    requires ProducersInRange(s) && Enabled(s, step)
    ensures ProducersInRange(Next(s, step))
  {}

  lemma {:induction false} OrderStep(s: State, step: Step)
    requires ControlInvariant(s) && Enabled(s, step) && s.flushed + s.batch + s.buffer == s.viaBuffer
    ensures var t := Next(s, step); t.flushed + t.batch + t.buffer == t.viaBuffer
  {}

  lemma {:induction false} HistoryStep(s: State, step: Step)
    requires Enabled(s, step)
    ensures var t := Next(s, step);
            multiset(t.viaBuffer) + t.direct == multiset(s.viaBuffer) + s.direct + StepRecords(step)
  {}

  lemma {:induction false} InvariantHolds(run: History)
    requires Valid(run)
    ensures Invariant(After(run))
    ensures Recorded(run) == multiset(After(run).viaBuffer) + After(run).direct
  {
    match run {
      case Start(_) =>
      case Then(before, step) =>
        InvariantHolds(before);
        var s, t := After(before), After(run);
        ControlInvariantStep(s, step);
        ProducersInRangeStep(s, step);
        OrderStep(s, step);
        HistoryStep(s, step);
        SinksKept(s, step);
        forall i: nat | i < |t.sinks| ensures SinkInvariant(t, i) {
          assert SinkInvariant(s, i);
          WorkerSideStep(s, step, i);
          ProducerSideStep(s, step, i);
        }
    }
  }

  // ---------- The theorems ----------

  /** The part of the current batch that sink `i` has not been offered yet. */
  function Unflushed(s: State, i: nat): seq<Event> {
    if Reached(s, i) then [] else s.batch
  }

  lemma {:induction false} WorkerOrder(s: State, i: nat)
    requires s.flushed + s.batch + s.buffer == s.viaBuffer && i < |s.sinks| && WorkerSide(s, i)
    ensures FromWorker(s.sinks[i]) + Unflushed(s, i) + s.buffer == s.viaBuffer
    ensures multiset(FromWorker(s.sinks[i])) + multiset(Unflushed(s, i)) + multiset(s.buffer) == multiset(s.viaBuffer)
  {
    assert FromWorker(s.sinks[i]) + Unflushed(s, i) == s.flushed + s.batch;
    MultisetOfThree(FromWorker(s.sinks[i]), Unflushed(s, i), s.buffer);
  }

  lemma {:induction false} MultisetOfThree(a: seq<Event>, b: seq<Event>, c: seq<Event>)
    ensures multiset(a + b + c) == multiset(a) + multiset(b) + multiset(c)
  {}

  /** Conservation and order, in every reachable state and at every sink: what was offered, what
      producers still owe, the unflushed batch and the buffer are exactly the recorded events, and
      the worker's offers are a prefix of the buffered events in the order they were recorded. */
  lemma {:induction false} Conservation(run: History, i: nat)
    requires Valid(run) && i < |After(run).sinks|
    ensures var s := After(run);
            Offered(s.sinks[i]) + Owed(s.producers, i) + multiset(Unflushed(s, i)) + multiset(s.buffer) ==
            Recorded(run) &&
            FromWorker(s.sinks[i]) + Unflushed(s, i) + s.buffer == s.viaBuffer
  {
    InvariantHolds(run);
    var s := After(run);
    assert SinkInvariant(s, i);
    WorkerOrder(s, i);
    OfferedSplits(s.sinks[i]);
  }

  /** Bounded memory: the channel never exceeds its capacity, and while the worker waits the batch
      is below max(1, batchSize). */
  lemma {:induction false} Bounded(run: History)
    requires Valid(run)
    ensures |After(run).buffer| <= After(run).capacity
    ensures After(run).worker.Idle? ==> |After(run).batch| < MaxBatch(After(run))
  {
    InvariantHolds(run);
  }

  /** Once the worker has stopped and no producer is mid-write, every event ever recorded has been
      offered to every sink exactly once, buffered ones in recording order; a sink that never
      failed holds exactly the recorded events. */
  lemma {:induction false} ShutdownDelivers(run: History, i: nat)
    requires Valid(run) && After(run).worker.Stopped? && After(run).producers == [] && i < |After(run).sinks|
    ensures var s := After(run);
            FromWorker(s.sinks[i]) == s.viaBuffer && Offered(s.sinks[i]) == Recorded(run) &&
            (NeverFailed(s.sinks[i]) ==> Stored(s.sinks[i]) == Recorded(run))
  {
    InvariantHolds(run);
    assert SinkInvariant(After(run), i);
    StoppedSinkIsComplete(After(run), i);
  }

  lemma {:induction false} StoppedSinkIsComplete(s: State, i: nat)
    requires s.worker.Stopped? && s.producers == [] && s.batch == [] && s.buffer == [] && i < |s.sinks|
    requires s.flushed + s.batch + s.buffer == s.viaBuffer && WorkerSide(s, i) && ProducerSide(s, i)
    ensures FromWorker(s.sinks[i]) == s.viaBuffer
    ensures Offered(s.sinks[i]) == multiset(s.viaBuffer) + s.direct
    ensures NeverFailed(s.sinks[i]) ==> Stored(s.sinks[i]) == multiset(s.viaBuffer) + s.direct
  {
    OfferedSplits(s.sinks[i]);
    assert s.flushed + [] + [] == s.flushed;
  }
}
